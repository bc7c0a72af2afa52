/**
 * The detailed comparison stage: the production and latest summary rows keyed by
 * `name|version`, every key classified as FIXED, NEW, IMPROVED, WORSENED or UNCHANGED,
 * joined with the images and ids of the production tracking rows, and sorted by status.
 */
module Comparison {
  import opened Wrappers
  import opened Text
  import opened Collections
  import opened Records
  import Summary

  // ---------------------------------------------------------------------------
  // parse_severity_breakdown
  // ---------------------------------------------------------------------------

  type Counts = map<string, nat>

  /** The six severities `parse_severity_breakdown` keeps a count for, all starting at 0. */
  const ZeroCounts: Counts :=
    map["Critical" := 0, "High" := 0, "Medium" := 0, "Low" := 0, "Info" := 0, "Unknown" := 0]

  /**
   * The match of `(\w+):\s*(\d+)` at the start of `s`, as (word, digits, length). Giving
   * back characters never helps: a shorter word leaves a word character where the colon
   * must be, and fewer spaces leave a space where a digit must be, so each repetition
   * takes its longest run.
   */
  function PairAt(s: string): (m: Option<(string, string, nat)>)
    ensures m.Some? ==> 0 < m.value.2 <= |s|
  {
    var q := RunEnd(s, 0, IsWordChar);
    if 0 < q < |s| && s[q] == ':' then
      var r := RunEnd(s, q + 1, IsSpace);
      var e := RunEnd(s, r, IsDigit);
      if r < e then Some((s[..q], s[r..e], e)) else None
    else None
  }

  /** `re.findall(r'(\w+):\s*(\d+)', s)`: scans left to right and resumes after each match. */
  function FindPairs(s: string): seq<(string, string)>
    decreases |s|
  {
    if s == [] then []
    else
      var m := PairAt(s);
      if m.Some? then [(m.value.0, m.value.1)] + FindPairs(s[m.value.2..]) else FindPairs(s[1..])
  }

  /** One pass of the loop: a known severity takes the count, any other word is ignored. */
  function ApplyPair(counts: Counts, p: (string, string)): Counts {
    if p.0 in counts then counts[p.0 := ParseNat(p.1)] else counts
  }

  function ApplyPairs(counts: Counts, ps: seq<(string, string)>): (r: Counts)
    ensures r.Keys == counts.Keys
    decreases |ps|
  {
    if ps == [] then counts else ApplyPairs(ApplyPair(counts, ps[0]), ps[1..])
  }

  /** The inputs that give all zeros: empty, "N/A" or "Unknown". */
  predicate IsBlankBreakdown(b: string) {
    b == "" || b == "N/A" || b == "Unknown"
  }

  function ParseSeverityBreakdown(b: string): (r: Counts)
    ensures r.Keys == ZeroCounts.Keys
  {
    if IsBlankBreakdown(b) then ZeroCounts else ApplyPairs(ZeroCounts, FindPairs(b))
  }

  /** The digits of the last pair that names `w`. */
  function LastCount(ps: seq<(string, string)>, w: string): Option<string>
    decreases |ps|
  {
    if ps == [] then None
    else
      var later := LastCount(ps[1..], w);
      if later.Some? then later else if ps[0].0 == w then Some(ps[0].1) else None
  }

  /** A known severity ends with the count of the last pair naming it, or keeps its start value. */
  lemma {:induction false} ApplyPairsValue(counts: Counts, ps: seq<(string, string)>, w: string)
    requires w in counts
    ensures ApplyPairs(counts, ps)[w] == if LastCount(ps, w).Some? then ParseNat(LastCount(ps, w).value) else counts[w]
    decreases |ps|
  {
    if ps != [] {
      ApplyPairsValue(ApplyPair(counts, ps[0]), ps[1..], w);
    }
  }

  /**
   * What `parse_severity_breakdown` returns: always the six severities; all 0 for a blank
   * input; otherwise each one holds the count of the last "Word: digits" pair naming it, and
   * words that are not one of the six change nothing.
   */
  lemma ParsedCounts(b: string, w: string)
    requires w in ZeroCounts
    ensures IsBlankBreakdown(b) ==> ParseSeverityBreakdown(b)[w] == 0
    ensures !IsBlankBreakdown(b) ==>
      ParseSeverityBreakdown(b)[w] == match LastCount(FindPairs(b), w) case Some(d) => ParseNat(d) case None => 0
  {
    if !IsBlankBreakdown(b) {
      ApplyPairsValue(ZeroCounts, FindPairs(b), w);
    }
  }

  /** `parse_severity_breakdown`: the `counts` dict updated once per match, in order. */
  method ParseBreakdown(b: string) returns (counts: Counts)
    ensures counts == ParseSeverityBreakdown(b)
  {
    if b == "" || b == "N/A" || b == "Unknown" {
      return ZeroCounts;
    }
    counts := ZeroCounts;
    var matches := FindPairs(b);
    for i := 0 to |matches|
      invariant ApplyPairs(counts, matches[i..]) == ApplyPairs(ZeroCounts, matches)
    {
      assert matches[i..][1..] == matches[i + 1..];
      var severity, count := matches[i].0, matches[i].1;
      if severity in counts {
        counts := counts[severity := ParseNat(count)];
      }
    }
    assert matches[|matches|..] == [];
  }

  // ---------------------------------------------------------------------------
  // Round trip with the summary stage's Severity_Breakdown
  // ---------------------------------------------------------------------------

  /** A severity the breakdown grammar reads back whole: one or more word characters. */
  predicate IsWord(s: string) {
    |s| > 0 && AllWordChars(s)
  }

  /** The pairs a breakdown with severities `sevs` should read back as. */
  function PairsOf(vs: seq<TrackingRow>, sevs: seq<string>): seq<(string, string)> {
    if sevs == [] then []
    else [(sevs[0], NatToString(|Members(vs, Summary.SeverityOf, sevs[0])|))] + PairsOf(vs, sevs[1..])
  }

  /** "Sev: digits" at the start of a string, followed by the end or a comma, is one whole match. */
  lemma PairAtEntry(sev: string, d: string, rest: string)
    requires IsWord(sev) && |d| > 0 && AllDigits(d)
    requires rest == [] || rest[0] == ','
    ensures PairAt(sev + ": " + d + rest) == Some((sev, d, |sev| + 2 + |d|))
  {
    var s := sev + ": " + d + rest;
    var q, r, e := |sev|, |sev| + 2, |sev| + 2 + |d|;
    assert forall k :: 0 <= k < q ==> s[k] == sev[k];
    assert s[q] == ':' && s[q + 1] == ' ' && s[r] == d[0];
    assert forall k :: r <= k < e ==> s[k] == d[k - r];
    assert e < |s| ==> s[e] == rest[0];
    RunEndIs(s, 0, IsWordChar, q);
    DigitNotSpace(d[0]);
    RunEndIs(s, q + 1, IsSpace, r);
    RunEndIs(s, r, IsDigit, e);
    assert s[..q] == sev && s[r..e] == d;
  }

  /** An entry "Sev: n" followed by the end or by a comma is read as the pair (Sev, n). */
  lemma EntryPair(sev: string, n: nat, rest: string)
    requires IsWord(sev)
    requires rest == [] || rest[0] == ','
    ensures FindPairs(Summary.BreakdownEntry(sev, n) + rest) == [(sev, NatToString(n))] + FindPairs(rest)
  {
    var d := NatToString(n);
    var s := Summary.BreakdownEntry(sev, n) + rest;
    assert s == sev + ": " + d + rest;
    PairAtEntry(sev, d, rest);
    assert s[|sev| + 2 + |d|..] == rest;
  }

  /** The separator ", " holds no pair. */
  lemma SkipSeparator(more: string)
    ensures FindPairs(", " + more) == FindPairs(more)
  {
    var s := ", " + more;
    assert RunEnd(s, 0, IsWordChar) == 0;
    assert s[1..] == " " + more;
    assert RunEnd(s[1..], 0, IsWordChar) == 0;
    assert s[1..][1..] == more;
  }

  lemma {:induction false} FindPairsOfBreakdown(vs: seq<TrackingRow>, sevs: seq<string>)
    requires forall i :: 0 <= i < |sevs| ==> IsWord(sevs[i])
    ensures FindPairs(Join(Summary.BreakdownEntries(vs, sevs), ", ")) == PairsOf(vs, sevs)
    decreases |sevs|
  {
    if sevs != [] {
      var n := |Members(vs, Summary.SeverityOf, sevs[0])|;
      var e := Summary.BreakdownEntry(sevs[0], n);
      var rest := Summary.BreakdownEntries(vs, sevs[1..]);
      assert Summary.BreakdownEntries(vs, sevs) == [e] + rest;
      if rest == [] {
        assert Join([e], ", ") == e + "";
        EntryPair(sevs[0], n, "");
        assert sevs[1..] == [] by { assert |rest| == |sevs[1..]| by { EntriesLength(vs, sevs[1..]); } }
      } else {
        JoinCons(e, rest, ", ");
        assert e + ", " + Join(rest, ", ") == e + (", " + Join(rest, ", "));
        EntryPair(sevs[0], n, ", " + Join(rest, ", "));
        SkipSeparator(Join(rest, ", "));
        FindPairsOfBreakdown(vs, sevs[1..]);
      }
    }
  }

  lemma {:induction false} EntriesLength(vs: seq<TrackingRow>, sevs: seq<string>)
    ensures |Summary.BreakdownEntries(vs, sevs)| == |sevs|
    decreases |sevs|
  {
    if sevs != [] {
      EntriesLength(vs, sevs[1..]);
    }
  }

  /** With distinct severities, the last pair naming `w` is its only one. */
  lemma {:induction false} LastCountOfPairs(vs: seq<TrackingRow>, sevs: seq<string>, w: string)
    requires forall i, j :: 0 <= i < j < |sevs| ==> sevs[i] != sevs[j]
    ensures LastCount(PairsOf(vs, sevs), w) ==
      if w in sevs then Some(NatToString(|Members(vs, Summary.SeverityOf, w)|)) else None
    decreases |sevs|
  {
    if sevs != [] {
      LastCountOfPairs(vs, sevs[1..], w);
      assert PairsOf(vs, sevs)[1..] == PairsOf(vs, sevs[1..]);
      assert w in sevs <==> w == sevs[0] || w in sevs[1..];
      if w == sevs[0] {
        assert w !in sevs[1..] by {
          forall j | 0 <= j < |sevs[1..]| ensures sevs[1..][j] != w { assert sevs[1..][j] == sevs[j + 1]; }
        }
      }
    }
  }

  /** A breakdown with at least one entry has a colon after its first word, so it is never one of the blank inputs. */
  lemma BreakdownNotBlank(vs: seq<TrackingRow>, sevs: seq<string>)
    requires |sevs| > 0 && IsWord(sevs[0])
    ensures !IsBlankBreakdown(Join(Summary.BreakdownEntries(vs, sevs), ", "))
  {
    var b := Join(Summary.BreakdownEntries(vs, sevs), ", ");
    var e := Summary.BreakdownEntry(sevs[0], |Members(vs, Summary.SeverityOf, sevs[0])|);
    var rest := Summary.BreakdownEntries(vs, sevs[1..]);
    assert Summary.BreakdownEntries(vs, sevs) == [e] + rest;
    assert e[|sevs[0]|] == ':';
    if rest == [] {
      assert b == e;
    } else {
      JoinCons(e, rest, ", ");
    }
    assert b[|sevs[0]|] == ':';
  }

  /** The sorted severities of a group whose severities are words are distinct words. */
  lemma SortedSeverities(vs: seq<TrackingRow>, w: string)
    requires forall j :: 0 <= j < |vs| ==> IsWord(vs[j].severity)
    ensures var sevs := SortedOf(Summary.Severities(vs));
      && (forall i :: 0 <= i < |sevs| ==> IsWord(sevs[i]))
      && (forall i, j :: 0 <= i < j < |sevs| ==> sevs[i] != sevs[j])
      && (w !in sevs ==> |Members(vs, Summary.SeverityOf, w)| == 0)
  {
    var sevs := SortedOf(Summary.Severities(vs));
    forall i | 0 <= i < |sevs| ensures IsWord(sevs[i]) {
      assert sevs[i] in Elems(sevs);
    }
    StrictlySortedDistinct(sevs);
    if w !in sevs {
      assert w !in Elems(sevs);
      MembersNonEmpty(vs, Summary.SeverityOf, w);
    }
  }

  /**
   * Reading back a Severity_Breakdown cell of the summary stage recovers, for each of the
   * six severities, the number of rows of the group that carry it, provided every severity
   * of the group is a single word (as the grammar `\w+` requires).
   */
  lemma BreakdownRoundTrip(vs: seq<TrackingRow>, w: string)
    requires forall j :: 0 <= j < |vs| ==> IsWord(vs[j].severity)
    requires w in ZeroCounts
    ensures ParseSeverityBreakdown(Summary.Breakdown(vs))[w] == |Members(vs, Summary.SeverityOf, w)|
  {
    var sevs := SortedOf(Summary.Severities(vs));
    var b := Summary.Breakdown(vs);
    SortedSeverities(vs, w);
    if sevs == [] {
      assert b == "";
    } else {
      BreakdownNotBlank(vs, sevs);
      FindPairsOfBreakdown(vs, sevs);
      LastCountOfPairs(vs, sevs, w);
      ParsedCounts(b, w);
      if w in sevs {
        ParseNatToString(|Members(vs, Summary.SeverityOf, w)|);
      }
    }
  }

  // ---------------------------------------------------------------------------
  // Package keys and the production tracking maps
  // ---------------------------------------------------------------------------

  function NameOf(row: CsvRow): string { Get(row, "Package_Name", "Unknown") }
  function VersionOf(row: CsvRow): string { Get(row, "Current_Version", "Unknown") }

  /** `create_package_key`: `Package_Name|Current_Version`, each part defaulting to "Unknown". */
  function PackageKeyOf(row: CsvRow): string {
    NameOf(row) + "|" + VersionOf(row)
  }

  /** Name and version come back from the key when neither holds a '|'. */
  lemma PackageKeyParts(row: CsvRow)
    requires '|' !in NameOf(row) && '|' !in VersionOf(row)
    ensures Split(PackageKeyOf(row), "|") == [NameOf(row), VersionOf(row)]
  {
    SplitCons(NameOf(row), "|", VersionOf(row));
    NotContainsChar(VersionOf(row), '|');
    SplitNoSep(VersionOf(row), "|");
  }

  /** `packages[key]` after `packages[key] = row` for every row in order: the last row with that key. */
  function LastRow(rows: seq<CsvRow>, k: string): (r: CsvRow)
    requires k in GroupKeys(rows, PackageKeyOf)
    ensures PackageKeyOf(r) == k && r in rows
  {
    MembersNonEmpty(rows, PackageKeyOf, k);
    var m := Members(rows, PackageKeyOf, k);
    m[|m| - 1]
  }

  /** A later row with the same key replaces an earlier one: the row kept is the last one. */
  lemma {:induction false} LastRowWins(rows: seq<CsvRow>, i: nat)
    requires i < |rows|
    requires forall j :: i < j < |rows| ==> PackageKeyOf(rows[j]) != PackageKeyOf(rows[i])
    ensures LastRow(rows, PackageKeyOf(rows[i])) == rows[i]
    decreases |rows|
  {
    var k := PackageKeyOf(rows[i]);
    var init := rows[..|rows| - 1];
    MembersNonEmpty(rows, PackageKeyOf, k);
    if i < |rows| - 1 {
      assert init[i] == rows[i];
      forall j | i < j < |init| ensures PackageKeyOf(init[j]) != k { assert init[j] == rows[j]; }
      LastRowWins(init, i);
      MembersNonEmpty(init, PackageKeyOf, k);
    }
  }

  /** The images of the tracking rows with key `k` (`package_to_images[k]`); a missing Image counts as "Unknown". */
  function ImagesOf(tracking: seq<CsvRow>, k: string): set<string>
    decreases |tracking|
  {
    if tracking == [] then {}
    else
      var row := tracking[|tracking| - 1];
      ImagesOf(tracking[..|tracking| - 1], k) + (if PackageKeyOf(row) == k then {Get(row, "Image", "Unknown")} else {})
  }

  /** The vulnerability ids of the tracking rows with key `k` (`package_to_vulns[k]`), leaving out "Unknown". */
  function VulnsOf(tracking: seq<CsvRow>, k: string): set<string>
    decreases |tracking|
  {
    if tracking == [] then {}
    else
      var row := tracking[|tracking| - 1];
      var id := Get(row, "Vulnerability_ID", "Unknown");
      VulnsOf(tracking[..|tracking| - 1], k) + (if PackageKeyOf(row) == k && id != "Unknown" then {id} else {})
  }

  /** An image is listed for `k` exactly when some tracking row with key `k` names it. */
  lemma {:induction false} TrackedImages(tracking: seq<CsvRow>, k: string, x: string)
    ensures x in ImagesOf(tracking, k) <==>
      exists i :: 0 <= i < |tracking| && PackageKeyOf(tracking[i]) == k && Get(tracking[i], "Image", "Unknown") == x
    decreases |tracking|
  {
    if tracking != [] {
      var init := tracking[..|tracking| - 1];
      TrackedImages(init, k, x);
      assert forall i :: 0 <= i < |init| ==> init[i] == tracking[i];
    }
  }

  /** An id is listed for `k` exactly when it is not "Unknown" and some tracking row with key `k` carries it. */
  lemma {:induction false} TrackedVulns(tracking: seq<CsvRow>, k: string, x: string)
    ensures x in VulnsOf(tracking, k) <==>
      x != "Unknown" &&
      exists i :: 0 <= i < |tracking| && PackageKeyOf(tracking[i]) == k && Get(tracking[i], "Vulnerability_ID", "Unknown") == x
    decreases |tracking|
  {
    if tracking != [] {
      var init := tracking[..|tracking| - 1];
      TrackedVulns(init, k, x);
      assert forall i :: 0 <= i < |init| ==> init[i] == tracking[i];
    }
  }

  /** `d.get(k, set())`. */
  function SetOr(d: map<string, set<string>>, k: string): set<string> {
    if k in d then d[k] else {}
  }

  /** The loop that fills `package_to_images` and `package_to_vulns` from the production tracking rows. */
  method BuildTrackingMaps(tracking: seq<CsvRow>) returns (images: map<string, set<string>>, vulns: map<string, set<string>>)
    ensures forall k :: SetOr(images, k) == ImagesOf(tracking, k)
    ensures forall k :: SetOr(vulns, k) == VulnsOf(tracking, k)
  {
    images, vulns := map[], map[];
    for i := 0 to |tracking|
      invariant forall k :: SetOr(images, k) == ImagesOf(tracking[..i], k)
      invariant forall k :: SetOr(vulns, k) == VulnsOf(tracking[..i], k)
    {
      PrefixOfPrefix(tracking, i);
      var row := tracking[i];
      var key := PackageKeyOf(row);
      var image := Get(row, "Image", "Unknown");
      var id := Get(row, "Vulnerability_ID", "Unknown");
      if key !in images {
        images := images[key := {}];
      }
      if key !in vulns {
        vulns := vulns[key := {}];
      }
      images := images[key := images[key] + {image}];
      if id != "Unknown" {
        vulns := vulns[key := vulns[key] + {id}];
      }
    }
    PrefixAll(tracking);
  }

  /** `'; '.join(sorted(s)) if s else 'Unknown'`. */
  ghost function Listed(s: set<string>): string {
    if s == {} then "Unknown" else Join(SortedOf(s), "; ")
  }

  method RenderListed(s: set<string>) returns (text: string)
    ensures text == Listed(s)
  {
    if s == {} {
      return "Unknown";
    }
    var sorted := SortSet(s);
    text := Join(sorted, "; ");
  }

  // ---------------------------------------------------------------------------
  // Result rows
  // ---------------------------------------------------------------------------

  /** A row of the detailed comparison CSV. */
  datatype ComparisonRow = ComparisonRow(
    status: string,
    package: string,
    currentVersion: string,
    affectedImages: string,
    fixedVulnerabilities: string,
    countProd: string,
    countLatest: string,
    priorityProd: string,
    priorityLatest: string,
    highProd: string,
    highLatest: string,
    criticalProd: string,
    criticalLatest: string,
    impact: string)

  function ResultKey(r: ComparisonRow): string {
    r.package + "|" + r.currentVersion
  }

  function CountText(row: CsvRow): string { Get(row, "Vulnerability_Count", "0") }

  /** `str(parse_severity_breakdown(row.get('Severity_Breakdown', ''))[sev])`. */
  function SeverityCell(row: CsvRow, sev: string): string
    requires sev in ZeroCounts
  {
    NatToString(ParseSeverityBreakdown(Get(row, "Severity_Breakdown", ""))[sev])
  }

  /** The entry for a key found only in production. */
  function FixedRow(p: CsvRow, images: string, vulns: string): (r: ComparisonRow)
    ensures ResultKey(r) == PackageKeyOf(p) && StatusRank(r.status) == 0
    ensures r.countProd == CountText(p) && r.affectedImages == images && r.fixedVulnerabilities == vulns
    ensures r.countLatest == "0" && r.highLatest == "0" && r.criticalLatest == "0" && r.priorityLatest == "N/A"
  {
    ComparisonRow("FIXED", NameOf(p), VersionOf(p), images, vulns,
      CountText(p), "0", Get(p, "Priority", "Unknown"), "N/A",
      SeverityCell(p, "High"), "0", SeverityCell(p, "Critical"), "0",
      "Eliminates " + CountText(p) + " vulnerabilities")
  }

  /** The entry for a key found only in latest. */
  function NewRow(l: CsvRow): (r: ComparisonRow)
    ensures ResultKey(r) == PackageKeyOf(l) && StatusRank(r.status) == 2
    ensures r.countLatest == CountText(l)
    ensures r.countProd == "0" && r.highProd == "0" && r.criticalProd == "0" && r.priorityProd == "N/A"
  {
    ComparisonRow("NEW", NameOf(l), VersionOf(l), "N/A (Latest only)", "N/A (New in latest)",
      "0", CountText(l), "N/A", Get(l, "Priority", "Unknown"),
      "0", SeverityCell(l, "High"), "0", SeverityCell(l, "Critical"),
      "Introduces " + CountText(l) + " new vulnerabilities")
  }

  function ChangeStatus(p: int, l: int): string {
    if p != l then (if l < p then "IMPROVED" else "WORSENED") else "UNCHANGED"
  }

  function ChangeImpact(p: int, l: int): string {
    if p != l then "Change: " + IntToString(p) + " \U{2192} " + IntToString(l) + " vulnerabilities"
    else "No change: " + IntToString(p) + " vulnerabilities"
  }

  /** The entry for a key found in both; the counts are read as integers (0 stands in where `int()` raises). */
  function SharedRow(p: CsvRow, l: CsvRow, images: string, vulns: string): (r: ComparisonRow)
    ensures ResultKey(r) == PackageKeyOf(p)
    ensures r.countProd == CountText(p) && r.countLatest == CountText(l) && r.affectedImages == images
    ensures var pc, lc := ParseInt(CountText(p)).GetOr(0), ParseInt(CountText(l)).GetOr(0);
      && (r.status == "IMPROVED" <==> lc < pc)
      && (r.status == "WORSENED" <==> pc < lc)
      && (r.status == "UNCHANGED" <==> pc == lc)
    ensures r.fixedVulnerabilities == if r.status == "UNCHANGED" then "Still present" else vulns
  {
    var pc, lc := ParseInt(CountText(p)).GetOr(0), ParseInt(CountText(l)).GetOr(0);
    var status := ChangeStatus(pc, lc);
    ComparisonRow(status, NameOf(p), VersionOf(p), images,
      if status == "IMPROVED" || status == "WORSENED" then vulns else "Still present",
      CountText(p), CountText(l), Get(p, "Priority", "Unknown"), Get(l, "Priority", "Unknown"),
      SeverityCell(p, "High"), SeverityCell(l, "High"), SeverityCell(p, "Critical"), SeverityCell(l, "Critical"),
      ChangeImpact(pc, lc))
  }

  // ---------------------------------------------------------------------------
  // The three result lists
  // ---------------------------------------------------------------------------

  /** The three input files, already read. */
  datatype Inputs = Inputs(prod: seq<CsvRow>, latest: seq<CsvRow>, tracking: seq<CsvRow>)

  /** `prod_packages.keys()` and `latest_packages.keys()`, in insertion order. */
  function ProdKeys(inp: Inputs): seq<string> { GroupKeys(inp.prod, PackageKeyOf) }
  function LatestKeys(inp: Inputs): seq<string> { GroupKeys(inp.latest, PackageKeyOf) }

  /** Which of the three loops: over production keys missing from latest, latest keys missing from production, or keys in both. */
  datatype Kind = Fixed | New | Shared

  function KindKeys(inp: Inputs, kind: Kind): seq<string> {
    if kind == New then LatestKeys(inp) else ProdKeys(inp)
  }

  /** What the loop over `kind` appends for key `k`, if anything. */
  ghost function Entry(inp: Inputs, kind: Kind, k: string): Option<ComparisonRow>
    requires k in KindKeys(inp, kind)
  {
    match kind
    case Fixed =>
      if k in LatestKeys(inp) then None
      else Some(FixedRow(LastRow(inp.prod, k), Listed(ImagesOf(inp.tracking, k)), Listed(VulnsOf(inp.tracking, k))))
    case New =>
      if k in ProdKeys(inp) then None else Some(NewRow(LastRow(inp.latest, k)))
    case Shared =>
      if k !in LatestKeys(inp) then None
      else Some(SharedRow(LastRow(inp.prod, k), LastRow(inp.latest, k),
        Listed(ImagesOf(inp.tracking, k)), Listed(VulnsOf(inp.tracking, k))))
  }

  /** `Entry` for the keys the loop over `kind` visits, nothing for any other key. */
  ghost function EntryFn(inp: Inputs, kind: Kind): string -> Option<ComparisonRow> {
    k => if k in KindKeys(inp, kind) then Entry(inp, kind, k) else None
  }

  /** The list the loop over `kind` builds from the keys `ks`. */
  ghost function Entries(inp: Inputs, kind: Kind, ks: seq<string>): seq<ComparisonRow> {
    Gather(ks, EntryFn(inp, kind))
  }

  lemma EntriesStep(inp: Inputs, kind: Kind, i: nat)
    requires i < |KindKeys(inp, kind)|
    ensures Entries(inp, kind, KindKeys(inp, kind)[..i + 1]) ==
      Entries(inp, kind, KindKeys(inp, kind)[..i]) + Entry(inp, kind, KindKeys(inp, kind)[i]).ToSeq()
  {
    GatherStep(KindKeys(inp, kind), EntryFn(inp, kind), i);
  }

  /** `fixed_packages + new_vulnerabilities + unchanged_packages`. */
  ghost function ResultRows(inp: Inputs): seq<ComparisonRow> {
    Entries(inp, Fixed, ProdKeys(inp)) + Entries(inp, New, LatestKeys(inp)) + Entries(inp, Shared, ProdKeys(inp))
  }

  /** `int()` succeeds on both counts of every key in both inputs (the shared loop). */
  ghost predicate SharedCountsParse(inp: Inputs) {
    forall k :: k in ProdKeys(inp) && k in LatestKeys(inp) ==>
      ParseInt(CountText(LastRow(inp.prod, k))).Some? && ParseInt(CountText(LastRow(inp.latest, k))).Some?
  }

  /** `int()` succeeds on every row's production count (the sort key). */
  predicate SortKeysParse(rows: seq<ComparisonRow>) {
    forall i :: 0 <= i < |rows| ==> ParseInt(rows[i].countProd).Some?
  }

  // ---------------------------------------------------------------------------
  // The sort
  // ---------------------------------------------------------------------------

  /** `status_priority.get(status, 5)`. */
  function StatusRank(status: string): (r: nat)
    ensures r <= 5
    ensures r == 0 <==> status == "FIXED"
    ensures r == 1 <==> status == "IMPROVED"
    ensures r == 2 <==> status == "NEW"
    ensures r == 3 <==> status == "WORSENED"
    ensures r == 4 <==> status == "UNCHANGED"
  {
    if status == "FIXED" then 0
    else if status == "IMPROVED" then 1
    else if status == "NEW" then 2
    else if status == "WORSENED" then 3
    else if status == "UNCHANGED" then 4
    else 5
  }

  function ProdCountKey(r: ComparisonRow): int {
    -ParseInt(r.countProd).GetOr(0)
  }

  /** The sort key `(status rank, -int(count), package)` compared as a tuple. */
  predicate ComparisonLe(a: ComparisonRow, b: ComparisonRow) {
    var ra, rb := StatusRank(a.status), StatusRank(b.status);
    var ca, cb := ProdCountKey(a), ProdCountKey(b);
    ra < rb || (ra == rb && (ca < cb || (ca == cb && StrLe(a.package, b.package))))
  }

  lemma ComparisonLeTotalPreorder()
    ensures TotalPreorder(ComparisonLe)
  {
    StrLeTotalOrder();
  }

  // ---------------------------------------------------------------------------
  // generate_detailed_comparison
  // ---------------------------------------------------------------------------

  /** What the stage produces: one of its early exits, a crash in `int()`, or the sorted rows. */
  datatype ComparisonOutcome = NoProductionData | NoLatestData | CountNotInteger | Report(rows: seq<ComparisonRow>)

  /** The combined list, sorted. */
  ghost function ReportRows(inp: Inputs): seq<ComparisonRow> {
    SortBy(ResultRows(inp), ComparisonLe)
  }

  ghost function DetailedComparison(inp: Inputs): (o: ComparisonOutcome)
    ensures o.Report? ==> inp.prod != [] && inp.latest != [] && SharedCountsParse(inp)
    ensures o.Report? ==> |o.rows| == |ResultRows(inp)|
  {
    if inp.prod == [] then NoProductionData
    else if inp.latest == [] then NoLatestData
    else if !SharedCountsParse(inp) || !SortKeysParse(ResultRows(inp)) then CountNotInteger
    else Report(ReportRows(inp))
  }

  /** The lookup tables the three loops read, as the stage builds them. */
  ghost predicate Tables(inp: Inputs, prodPackages: map<string, CsvRow>, latestPackages: map<string, CsvRow>,
                         images: map<string, set<string>>, vulns: map<string, set<string>>) {
    && (forall k {:trigger k in prodPackages} :: k in prodPackages <==> k in ProdKeys(inp))
    && (forall k {:trigger prodPackages[k]} :: k in prodPackages ==> prodPackages[k] == LastRow(inp.prod, k))
    && (forall k {:trigger k in latestPackages} :: k in latestPackages <==> k in LatestKeys(inp))
    && (forall k {:trigger latestPackages[k]} :: k in latestPackages ==> latestPackages[k] == LastRow(inp.latest, k))
    && (forall k {:trigger SetOr(images, k)} :: SetOr(images, k) == ImagesOf(inp.tracking, k))
    && (forall k {:trigger SetOr(vulns, k)} :: SetOr(vulns, k) == VulnsOf(inp.tracking, k))
  }

  /** One iteration of the loop over `kind`: the row it appends for `key`, if any; `ok` is false where `int()` raises. */
  method EntryFor(inp: Inputs, kind: Kind, key: string, prodPackages: map<string, CsvRow>, latestPackages: map<string, CsvRow>,
                  images: map<string, set<string>>, vulns: map<string, set<string>>) returns (e: Option<ComparisonRow>, ok: bool)
    requires key in KindKeys(inp, kind) && Tables(inp, prodPackages, latestPackages, images, vulns)
    ensures ok <==> CountsParse(inp, kind, key)
    ensures ok ==> e == Entry(inp, kind, key)
  {
    ok := true;
    match kind
    case Fixed =>
      if key in latestPackages {
        return None, true;
      }
      var affected := RenderListed(SetOr(images, key));
      var fixedIds := RenderListed(SetOr(vulns, key));
      e := Some(FixedRow(prodPackages[key], affected, fixedIds));
    case New =>
      if key in prodPackages {
        return None, true;
      }
      e := Some(NewRow(latestPackages[key]));
    case Shared =>
      if key !in latestPackages {
        return None, true;
      }
      var prodRow, latestRow := prodPackages[key], latestPackages[key];
      var prodCount := ParseInt(CountText(prodRow));
      var latestCount := ParseInt(CountText(latestRow));
      if prodCount.None? || latestCount.None? {
        return None, false;
      }
      var affected := RenderListed(SetOr(images, key));
      var currentIds := RenderListed(SetOr(vulns, key));
      e := Some(SharedRow(prodRow, latestRow, affected, currentIds));
  }

  /** `int()` succeeds on the counts the loop over `kind` reads for key `k` (only the shared loop reads any). */
  ghost predicate CountsParse(inp: Inputs, kind: Kind, k: string) {
    kind == Shared && k in ProdKeys(inp) && k in LatestKeys(inp) ==>
      ParseInt(CountText(LastRow(inp.prod, k))).Some? && ParseInt(CountText(LastRow(inp.latest, k))).Some?
  }

  /** One of the three loops: `fixed_packages`, `new_vulnerabilities` or `unchanged_packages`. */
  method Collect(inp: Inputs, kind: Kind, keys: seq<string>, prodPackages: map<string, CsvRow>, latestPackages: map<string, CsvRow>,
                 images: map<string, set<string>>, vulns: map<string, set<string>>) returns (rows: seq<ComparisonRow>, ok: bool)
    requires keys == KindKeys(inp, kind) && Tables(inp, prodPackages, latestPackages, images, vulns)
    ensures ok <==> forall j :: 0 <= j < |keys| ==> CountsParse(inp, kind, keys[j])
    ensures ok ==> rows == Entries(inp, kind, keys)
  {
    rows := [];
    for i := 0 to |keys|
      invariant rows == Entries(inp, kind, keys[..i])
      invariant ParsesUpTo(inp, kind, i)
    {
      EntriesStep(inp, kind, i);
      var e, fine := EntryFor(inp, kind, keys[i], prodPackages, latestPackages, images, vulns);
      if !fine {
        ParsesUpToFails(inp, kind, i);
        return rows, false;
      }
      ParsesUpToStep(inp, kind, i);
      rows := rows + e.ToSeq();
    }
    PrefixAll(keys);
    ok := true;
  }

  /** `int()` succeeds on the counts of the first `n` keys the loop over `kind` visits. */
  ghost predicate ParsesUpTo(inp: Inputs, kind: Kind, n: nat)
    requires n <= |KindKeys(inp, kind)|
  {
    forall j :: 0 <= j < n ==> CountsParse(inp, kind, KindKeys(inp, kind)[j])
  }

  lemma ParsesUpToStep(inp: Inputs, kind: Kind, i: nat)
    requires i < |KindKeys(inp, kind)| && ParsesUpTo(inp, kind, i) && CountsParse(inp, kind, KindKeys(inp, kind)[i])
    ensures ParsesUpTo(inp, kind, i + 1)
  {
  }

  lemma ParsesUpToFails(inp: Inputs, kind: Kind, i: nat)
    requires i < |KindKeys(inp, kind)| && !CountsParse(inp, kind, KindKeys(inp, kind)[i])
    ensures !ParsesUpTo(inp, kind, |KindKeys(inp, kind)|)
  {
  }

  /** The shared loop's counts parse exactly when every key in both inputs has integer counts. */
  lemma SharedCountsParseKeys(inp: Inputs)
    ensures (forall j :: 0 <= j < |ProdKeys(inp)| ==> CountsParse(inp, Shared, ProdKeys(inp)[j])) <==> SharedCountsParse(inp)
  {
    var ks := ProdKeys(inp);
    if forall j :: 0 <= j < |ks| ==> CountsParse(inp, Shared, ks[j]) {
      forall k | k in ks && k in LatestKeys(inp)
        ensures ParseInt(CountText(LastRow(inp.prod, k))).Some? && ParseInt(CountText(LastRow(inp.latest, k))).Some?
      {
        var j :| 0 <= j < |ks| && ks[j] == k;
      }
    }
  }

  /** `packages[create_package_key(row)] = row` for every row: keys in insertion order, the last row per key. */
  method IndexPackages(rows: seq<CsvRow>) returns (keys: seq<string>, packages: map<string, CsvRow>)
    ensures keys == GroupKeys(rows, PackageKeyOf)
    ensures forall k {:trigger k in packages} :: k in packages <==> k in keys
    ensures forall k {:trigger packages[k]} :: k in packages ==> packages[k] == LastRow(rows, k)
  {
    keys, packages := IndexByKey(rows, PackageKeyOf);
  }

  /** The lookups the stage builds before its three loops. */
  method BuildTables(inp: Inputs)
    returns (prodKeys: seq<string>, prodPackages: map<string, CsvRow>, latestKeys: seq<string>, latestPackages: map<string, CsvRow>,
             images: map<string, set<string>>, vulns: map<string, set<string>>)
    ensures prodKeys == ProdKeys(inp) && latestKeys == LatestKeys(inp)
    ensures Tables(inp, prodPackages, latestPackages, images, vulns)
  {
    images, vulns := BuildTrackingMaps(inp.tracking);
    prodKeys, prodPackages := IndexPackages(inp.prod);
    latestKeys, latestPackages := IndexPackages(inp.latest);
  }

  /** `list.sort` computes every key before comparing, so one production count `int()` rejects fails the sort. */
  method CheckSortKeys(rows: seq<ComparisonRow>) returns (ok: bool)
    ensures ok <==> SortKeysParse(rows)
  {
    for i := 0 to |rows|
      invariant forall j :: 0 <= j < i ==> ParseInt(rows[j].countProd).Some?
    {
      if ParseInt(rows[i].countProd).None? {
        return false;
      }
    }
    return true;
  }

  /** `generate_detailed_comparison`, from the three files' rows to the sorted result rows. */
  method GenerateDetailedComparison(inp: Inputs) returns (out: ComparisonOutcome)
    ensures out == DetailedComparison(inp)
  {
    if inp.prod == [] {
      return NoProductionData;
    }
    if inp.latest == [] {
      return NoLatestData;
    }
    var prodKeys, prodPackages, latestKeys, latestPackages, images, vulns := BuildTables(inp);
    var fixed, fixedOk := Collect(inp, Fixed, prodKeys, prodPackages, latestPackages, images, vulns);
    var added, addedOk := Collect(inp, New, latestKeys, prodPackages, latestPackages, images, vulns);
    var shared, ok := Collect(inp, Shared, prodKeys, prodPackages, latestPackages, images, vulns);
    SharedCountsParseKeys(inp);
    if !ok {
      return CountNotInteger;
    }
    var all := fixed + added + shared;
    assert all == ResultRows(inp);
    ok := CheckSortKeys(all);
    if !ok {
      return CountNotInteger;
    }
    return Report(SortBy(all, ComparisonLe));
  }

  // ---------------------------------------------------------------------------
  // Properties of the result
  // ---------------------------------------------------------------------------

  /** 1 for the result rows whose key is `k`, 0 for the others. */
  function KeyIndicator(k: string): ComparisonRow -> nat {
    r => if ResultKey(r) == k then 1 else 0
  }

  /** The classification of a key of production or latest. */
  ghost function ExpectedStatus(inp: Inputs, k: string): string
    requires k in ProdKeys(inp) || k in LatestKeys(inp)
  {
    if k !in LatestKeys(inp) then "FIXED"
    else if k !in ProdKeys(inp) then "NEW"
    else
      var p := ParseInt(CountText(LastRow(inp.prod, k))).GetOr(0);
      var l := ParseInt(CountText(LastRow(inp.latest, k))).GetOr(0);
      if l < p then "IMPROVED" else if l > p then "WORSENED" else "UNCHANGED"
  }

  /**
   * The row for key `k`, cell by cell: what it takes from the production row, from the
   * latest row and from the production tracking rows, and the placeholders for a side
   * that lacks the key.
   */
  ghost predicate Describes(inp: Inputs, k: string, r: ComparisonRow)
    requires k in ProdKeys(inp) || k in LatestKeys(inp)
  {
    && ResultKey(r) == k
    && r.status == ExpectedStatus(inp, k)
    && (k in ProdKeys(inp) ==> (
          var p := LastRow(inp.prod, k);
          && r.package == NameOf(p) && r.currentVersion == VersionOf(p)
          && r.countProd == CountText(p) && r.priorityProd == Get(p, "Priority", "Unknown")
          && r.highProd == SeverityCell(p, "High") && r.criticalProd == SeverityCell(p, "Critical")
          && r.affectedImages == Listed(ImagesOf(inp.tracking, k))))
    && (k in LatestKeys(inp) ==> (
          var l := LastRow(inp.latest, k);
          && r.countLatest == CountText(l) && r.priorityLatest == Get(l, "Priority", "Unknown")
          && r.highLatest == SeverityCell(l, "High") && r.criticalLatest == SeverityCell(l, "Critical")))
    && (k !in LatestKeys(inp) ==> (
          && r.countLatest == "0" && r.priorityLatest == "N/A" && r.highLatest == "0" && r.criticalLatest == "0"
          && r.fixedVulnerabilities == Listed(VulnsOf(inp.tracking, k))
          && r.impact == "Eliminates " + r.countProd + " vulnerabilities"))
    && (k !in ProdKeys(inp) ==> (
          var l := LastRow(inp.latest, k);
          && r.package == NameOf(l) && r.currentVersion == VersionOf(l)
          && r.countProd == "0" && r.priorityProd == "N/A" && r.highProd == "0" && r.criticalProd == "0"
          && r.affectedImages == "N/A (Latest only)" && r.fixedVulnerabilities == "N/A (New in latest)"
          && r.impact == "Introduces " + r.countLatest + " new vulnerabilities"))
    && (k in ProdKeys(inp) && k in LatestKeys(inp) ==> (
          var p := ParseInt(r.countProd).GetOr(0);
          var l := ParseInt(r.countLatest).GetOr(0);
          && r.fixedVulnerabilities == (if p == l then "Still present" else Listed(VulnsOf(inp.tracking, k)))
          && r.impact == (if p == l then "No change: " + IntToString(p) + " vulnerabilities"
                          else "Change: " + IntToString(p) + " \U{2192} " + IntToString(l) + " vulnerabilities")))
  }

  lemma EntryKey(inp: Inputs, kind: Kind, k: string)
    requires k in KindKeys(inp, kind) && Entry(inp, kind, k).Some?
    ensures ResultKey(Entry(inp, kind, k).value) == k
  {
    match kind
    case Fixed => assert PackageKeyOf(LastRow(inp.prod, k)) == k;
    case New => assert PackageKeyOf(LastRow(inp.latest, k)) == k;
    case Shared => assert PackageKeyOf(LastRow(inp.prod, k)) == k;
  }

  /** Each loop appends a row that describes its key. */
  lemma EntryDescribes(inp: Inputs, kind: Kind, k: string)
    requires k in KindKeys(inp, kind) && Entry(inp, kind, k).Some?
    ensures k in ProdKeys(inp) || k in LatestKeys(inp)
    ensures Describes(inp, k, Entry(inp, kind, k).value)
  {
    match kind
    case Fixed => FixedDescribes(inp, k);
    case New => NewDescribes(inp, k);
    case Shared => SharedDescribes(inp, k);
  }

  lemma FixedDescribes(inp: Inputs, k: string)
    requires k in ProdKeys(inp) && k !in LatestKeys(inp)
    ensures Describes(inp, k, FixedRow(LastRow(inp.prod, k), Listed(ImagesOf(inp.tracking, k)), Listed(VulnsOf(inp.tracking, k))))
  {
    assert PackageKeyOf(LastRow(inp.prod, k)) == k;
  }

  lemma NewDescribes(inp: Inputs, k: string)
    requires k in LatestKeys(inp) && k !in ProdKeys(inp)
    ensures Describes(inp, k, NewRow(LastRow(inp.latest, k)))
  {
    assert PackageKeyOf(LastRow(inp.latest, k)) == k;
  }

  lemma SharedDescribes(inp: Inputs, k: string)
    requires k in ProdKeys(inp) && k in LatestKeys(inp)
    ensures Describes(inp, k, SharedRow(LastRow(inp.prod, k), LastRow(inp.latest, k),
      Listed(ImagesOf(inp.tracking, k)), Listed(VulnsOf(inp.tracking, k))))
  {
    assert PackageKeyOf(LastRow(inp.prod, k)) == k;
  }

  /** Every row of a loop's list is the entry of one of its keys. */
  lemma EntriesElement(inp: Inputs, kind: Kind, i: nat) returns (k: string)
    requires i < |Entries(inp, kind, KindKeys(inp, kind))|
    ensures k in KindKeys(inp, kind) && Entry(inp, kind, k) == Some(Entries(inp, kind, KindKeys(inp, kind))[i])
  {
    k := GatherElement(KindKeys(inp, kind), EntryFn(inp, kind), i);
  }

  /** A loop's list holds one row for each of its keys whose entry exists, and none for other keys. */
  lemma EntriesKeyCount(inp: Inputs, kind: Kind, k: string)
    ensures SumBy(Entries(inp, kind, KindKeys(inp, kind)), KeyIndicator(k)) ==
      if k in KindKeys(inp, kind) && Entry(inp, kind, k).Some? then 1 else 0
  {
    var ks, f := KindKeys(inp, kind), EntryFn(inp, kind);
    forall j | 0 <= j < |ks| && f(ks[j]).Some? ensures ResultKey(f(ks[j]).value) == ks[j] {
      EntryKey(inp, kind, ks[j]);
    }
    GatherKeyCount(ks, f, ResultKey, KeyIndicator(k), k);
  }

  /** The combined list holds exactly one row for each key of production or latest. */
  lemma ResultKeyCount(inp: Inputs, k: string)
    ensures SumBy(ResultRows(inp), KeyIndicator(k)) == if k in ProdKeys(inp) || k in LatestKeys(inp) then 1 else 0
  {
    var a := Entries(inp, Fixed, ProdKeys(inp));
    var b := Entries(inp, New, LatestKeys(inp));
    var c := Entries(inp, Shared, ProdKeys(inp));
    SumByAppend(a + b, c, KeyIndicator(k));
    SumByAppend(a, b, KeyIndicator(k));
    EntriesKeyCount(inp, Fixed, k);
    EntriesKeyCount(inp, New, k);
    EntriesKeyCount(inp, Shared, k);
    EntryPresence(inp, k);
  }

  /** Which of the three loops appends a row for key `k`. */
  lemma EntryPresence(inp: Inputs, k: string)
    ensures (k in ProdKeys(inp) && Entry(inp, Fixed, k).Some?) <==> k in ProdKeys(inp) && k !in LatestKeys(inp)
    ensures (k in LatestKeys(inp) && Entry(inp, New, k).Some?) <==> k in LatestKeys(inp) && k !in ProdKeys(inp)
    ensures (k in ProdKeys(inp) && Entry(inp, Shared, k).Some?) <==> k in ProdKeys(inp) && k in LatestKeys(inp)
  {
  }

  /** Every row of the combined list describes its key. */
  lemma ResultRowDescribes(inp: Inputs, j: nat)
    requires j < |ResultRows(inp)|
    ensures var r := ResultRows(inp)[j];
      (ResultKey(r) in ProdKeys(inp) || ResultKey(r) in LatestKeys(inp)) && Describes(inp, ResultKey(r), r)
  {
    var a := Entries(inp, Fixed, ProdKeys(inp));
    var b := Entries(inp, New, LatestKeys(inp));
    var c := Entries(inp, Shared, ProdKeys(inp));
    var kind, i;
    if j < |a| {
      kind, i := Fixed, j;
    } else if j < |a| + |b| {
      kind, i := New, j - |a|;
    } else {
      kind, i := Shared, j - |a| - |b|;
    }
    assert ResultRows(inp)[j] == Entries(inp, kind, KindKeys(inp, kind))[i];
    var k := EntriesElement(inp, kind, i);
    EntryDescribes(inp, kind, k);
    EntryKey(inp, kind, k);
  }

  /** The report holds as many rows of a key as the combined list does: one for a key of production or latest. */
  lemma ReportKeyCount(inp: Inputs, k: string)
    ensures SumBy(ReportRows(inp), KeyIndicator(k)) == if k in ProdKeys(inp) || k in LatestKeys(inp) then 1 else 0
  {
    SortByPermutes(ResultRows(inp), ComparisonLe);
    ResultKeyCount(inp, k);
    SumByPermutation(ReportRows(inp), ResultRows(inp), KeyIndicator(k));
  }

  /** Every key of production or latest has exactly one row in the report, and no other key has one. */
  lemma ReportOnePerKey(inp: Inputs)
    ensures forall k :: (SumBy(ReportRows(inp), KeyIndicator(k)) ==
      if k in ProdKeys(inp) || k in LatestKeys(inp) then 1 else 0)
    ensures inp.prod != [] ==> |ReportRows(inp)| > 0
  {
    forall k ensures SumBy(ReportRows(inp), KeyIndicator(k)) == if k in ProdKeys(inp) || k in LatestKeys(inp) then 1 else 0 {
      ReportKeyCount(inp, k);
    }
    if inp.prod != [] {
      var k0 := PackageKeyOf(inp.prod[0]);
      assert k0 in ProdKeys(inp);
      ReportKeyCount(inp, k0);
    }
  }

  /** Every row of the report carries the classification and the cells of its key. */
  lemma ReportRowDescribes(inp: Inputs, i: nat)
    requires i < |ReportRows(inp)|
    ensures var r := ReportRows(inp)[i];
      (ResultKey(r) in ProdKeys(inp) || ResultKey(r) in LatestKeys(inp)) && Describes(inp, ResultKey(r), r)
  {
    var j := SortByElement(ResultRows(inp), ComparisonLe, i);
    ResultRowDescribes(inp, j);
  }

  /** The report row of a key of production or latest. */
  lemma ReportRowOf(inp: Inputs, k: string) returns (i: nat)
    requires k in ProdKeys(inp) || k in LatestKeys(inp)
    ensures i < |ReportRows(inp)|
    ensures ResultKey(ReportRows(inp)[i]) == k && Describes(inp, k, ReportRows(inp)[i])
  {
    ReportOnePerKey(inp);
    i := SumByPositive(ReportRows(inp), KeyIndicator(k));
    ReportRowDescribes(inp, i);
  }

  /** Rows in `ComparisonLe` order are in status order, and within one status in decreasing production count. */
  lemma SortedRowsOrder(rows: seq<ComparisonRow>)
    requires SortedBy(rows, ComparisonLe)
    ensures forall i, j :: 0 <= i < j < |rows| ==> StatusRank(rows[i].status) <= StatusRank(rows[j].status)
    ensures forall i, j :: 0 <= i < j < |rows| && rows[i].status == rows[j].status ==>
      ParseInt(rows[j].countProd).GetOr(0) <= ParseInt(rows[i].countProd).GetOr(0)
  {
    forall i, j | 0 <= i < j < |rows| ensures StatusRank(rows[i].status) <= StatusRank(rows[j].status) {
      assert ComparisonLe(rows[i], rows[j]);
    }
    forall i, j | 0 <= i < j < |rows| && rows[i].status == rows[j].status
      ensures ParseInt(rows[j].countProd).GetOr(0) <= ParseInt(rows[i].countProd).GetOr(0)
    {
      assert ComparisonLe(rows[i], rows[j]);
    }
  }

  /**
   * The report is ordered by status (FIXED, IMPROVED, NEW, WORSENED, UNCHANGED), then by
   * production count from high to low, then by package name; it is a permutation of the
   * combined list, and rows with equal sort keys keep their order in it.
   */
  lemma ReportOrder(inp: Inputs)
    ensures var rows := ReportRows(inp);
      && SortedBy(rows, ComparisonLe)
      && multiset(rows) == multiset(ResultRows(inp))
      && (forall y :: Ties(rows, y, ComparisonLe) == Ties(ResultRows(inp), y, ComparisonLe))
      && (forall i, j :: 0 <= i < j < |rows| ==> StatusRank(rows[i].status) <= StatusRank(rows[j].status))
      && (forall i, j :: 0 <= i < j < |rows| && rows[i].status == rows[j].status ==>
            ParseInt(rows[j].countProd).GetOr(0) <= ParseInt(rows[i].countProd).GetOr(0))
  {
    ComparisonLeTotalPreorder();
    SortByCorrect(ResultRows(inp), ComparisonLe);
    SortedRowsOrder(ReportRows(inp));
  }

  /** A production count, or a latest count of a key in both inputs, that `int()` rejects. */
  ghost predicate UnreadableCount(inp: Inputs) {
    exists k :: k in ProdKeys(inp) &&
      (ParseInt(CountText(LastRow(inp.prod, k))).None? ||
       (k in LatestKeys(inp) && ParseInt(CountText(LastRow(inp.latest, k))).None?))
  }

  /** If a production count is unreadable, the combined list has a row whose sort key `int()` rejects. */
  lemma UnreadableProdCount(inp: Inputs, k: string)
    requires k in ProdKeys(inp) && ParseInt(CountText(LastRow(inp.prod, k))).None?
    ensures !SortKeysParse(ResultRows(inp))
  {
    ResultKeyCount(inp, k);
    var j := SumByPositive(ResultRows(inp), KeyIndicator(k));
    ResultRowDescribes(inp, j);
  }

  /** A row whose sort key `int()` rejects carries a production count. */
  lemma UnreadableSortKey(inp: Inputs, j: nat)
    requires j < |ResultRows(inp)| && ParseInt(ResultRows(inp)[j].countProd).None?
    ensures UnreadableCount(inp)
  {
    var r := ResultRows(inp)[j];
    var k := ResultKey(r);
    ResultRowDescribes(inp, j);
    ZeroParses();
    ProdCountWitness(inp, k, r);
  }

  lemma ZeroParses()
    ensures ParseInt("0").Some?
  {
    assert AllDigits("0");
  }

  /** A described row whose production count `int()` rejects belongs to a production key with that count. */
  lemma ProdCountWitness(inp: Inputs, k: string, r: ComparisonRow)
    requires (k in ProdKeys(inp) || k in LatestKeys(inp)) && Describes(inp, k, r)
    requires ParseInt(r.countProd).None? && ParseInt("0").Some?
    ensures k in ProdKeys(inp) && ParseInt(CountText(LastRow(inp.prod, k))).None?
  {
  }

  /** The stage fails in `int()` exactly when some count it reads is unreadable. */
  lemma CountFailure(inp: Inputs)
    ensures !SharedCountsParse(inp) || !SortKeysParse(ResultRows(inp)) <==> UnreadableCount(inp)
  {
    if UnreadableCount(inp) {
      var k :| k in ProdKeys(inp) &&
        (ParseInt(CountText(LastRow(inp.prod, k))).None? ||
         (k in LatestKeys(inp) && ParseInt(CountText(LastRow(inp.latest, k))).None?));
      if k !in LatestKeys(inp) {
        UnreadableProdCount(inp, k);
      }
    }
    if !SharedCountsParse(inp) {
      var k :| k in ProdKeys(inp) && k in LatestKeys(inp) &&
        !(ParseInt(CountText(LastRow(inp.prod, k))).Some? && ParseInt(CountText(LastRow(inp.latest, k))).Some?);
      assert UnreadableCount(inp);
    } else if !SortKeysParse(ResultRows(inp)) {
      var j :| 0 <= j < |ResultRows(inp)| && ParseInt(ResultRows(inp)[j].countProd).None?;
      UnreadableSortKey(inp, j);
    }
  }

  /**
   * When the stage writes nothing: no production rows, else no latest rows, else a count
   * `int()` rejects; otherwise it reports the sorted rows.
   */
  lemma ComparisonOutcomes(inp: Inputs)
    ensures DetailedComparison(inp) == NoProductionData <==> inp.prod == []
    ensures DetailedComparison(inp) == NoLatestData <==> inp.prod != [] && inp.latest == []
    ensures DetailedComparison(inp) == CountNotInteger <==> inp.prod != [] && inp.latest != [] && UnreadableCount(inp)
    ensures DetailedComparison(inp).Report? ==> DetailedComparison(inp).rows == ReportRows(inp)
  {
    CountFailure(inp);
  }

  // ---------------------------------------------------------------------------
  // Examples
  // ---------------------------------------------------------------------------

  /** A file with a single row has that row's key, and the row itself under it. */
  lemma SingleRow(row: CsvRow)
    ensures GroupKeys([row], PackageKeyOf) == [PackageKeyOf(row)]
    ensures LastRow([row], PackageKeyOf(row)) == row
  {
    assert [row][..0] == [];
    assert GroupKeys([row][..0], PackageKeyOf) == [];
  }

  /**
   * Production holds foo 1.0 with 3 vulnerabilities and latest only bar 2.0: the report
   * has a FIXED row for foo that eliminates those 3.
   */
  lemma FixedExample(prodRow: CsvRow, latestRow: CsvRow)
    requires NameOf(prodRow) == "foo" && VersionOf(prodRow) == "1.0" && CountText(prodRow) == "3"
    requires NameOf(latestRow) == "bar" && VersionOf(latestRow) == "2.0" && CountText(latestRow) == "1"
    ensures var inp := Inputs([prodRow], [latestRow], []);
      && DetailedComparison(inp).Report?
      && exists i :: 0 <= i < |ReportRows(inp)| && ReportRows(inp)[i].package == "foo"
           && ReportRows(inp)[i].status == "FIXED"
           && ReportRows(inp)[i].countProd == "3" && ReportRows(inp)[i].countLatest == "0"
           && ReportRows(inp)[i].impact == "Eliminates " + "3" + " vulnerabilities"
  {
    var inp := Inputs([prodRow], [latestRow], []);
    var k := PackageKeyOf(prodRow);
    assert k == "foo|1.0";
    assert PackageKeyOf(latestRow) == "bar|2.0";
    SingleRow(prodRow);
    SingleRow(latestRow);
    assert k in ProdKeys(inp) && k !in LatestKeys(inp);
    assert ParseInt("3") == Some(3);
    OneKeyReadable(inp, k);
    ComparisonOutcomes(inp);
    var i := ReportRowOf(inp, k);
  }

  /** When production holds the one key `k`, its counts decide whether one is unreadable. */
  lemma OneKeyReadable(inp: Inputs, k: string)
    requires ProdKeys(inp) == [k]
    ensures !UnreadableCount(inp) <==>
      ParseInt(CountText(LastRow(inp.prod, k))).Some? &&
      (k in LatestKeys(inp) ==> ParseInt(CountText(LastRow(inp.latest, k))).Some?)
  {
  }

  lemma OnlyKey(inp: Inputs, k: string)
    requires ProdKeys(inp) == [k] && LatestKeys(inp) == [k]
    ensures forall k' :: k' in ProdKeys(inp) || k' in LatestKeys(inp) ==> k' == k
  {
  }

  /** When production and latest both hold key `k` and no other, the report is the one row for it. */
  lemma OneKeyReport(inp: Inputs, k: string)
    requires k in ProdKeys(inp) && k in LatestKeys(inp)
    requires forall k' :: k' in ProdKeys(inp) || k' in LatestKeys(inp) ==> k' == k
    ensures |ReportRows(inp)| == 1 && Describes(inp, k, ReportRows(inp)[0])
  {
    var rows := ReportRows(inp);
    assert |rows| == 1 by {
      forall j | 0 <= j < |rows| ensures KeyIndicator(k)(rows[j]) == 1 {
        ReportRowKey(inp, j);
        assert ResultKey(rows[j]) == k;
      }
      SumByOnes(rows, KeyIndicator(k));
      ReportOnePerKey(inp);
    }
    var i := ReportRowOf(inp, k);
    assert i == 0;
  }

  lemma ReportRowKey(inp: Inputs, i: nat)
    requires i < |ReportRows(inp)|
    ensures ResultKey(ReportRows(inp)[i]) in ProdKeys(inp) || ResultKey(ReportRows(inp)[i]) in LatestKeys(inp)
  {
    ReportRowDescribes(inp, i);
  }

  /**
   * Production and latest both hold foo 1.0, with 5 and then 2 vulnerabilities: the report
   * is that one IMPROVED row, and its impact gives the change.
   */
  lemma ImprovedExample(prodRow: CsvRow, latestRow: CsvRow)
    requires NameOf(prodRow) == "foo" && VersionOf(prodRow) == "1.0" && CountText(prodRow) == "5"
    requires NameOf(latestRow) == "foo" && VersionOf(latestRow) == "1.0" && CountText(latestRow) == "2"
    ensures var inp := Inputs([prodRow], [latestRow], []);
      && DetailedComparison(inp).Report?
      && |ReportRows(inp)| == 1
      && ReportRows(inp)[0].status == "IMPROVED"
      && ReportRows(inp)[0].impact == "Change: " + "5" + " \U{2192} " + "2" + " vulnerabilities"
  {
    var inp := Inputs([prodRow], [latestRow], []);
    var k := PackageKeyOf(prodRow);
    assert k == PackageKeyOf(latestRow);
    SingleRow(prodRow);
    SingleRow(latestRow);
    assert ParseInt("5") == Some(5) && ParseInt("2") == Some(2);
    assert IntToString(5) == "5" && IntToString(2) == "2";
    assert ProdKeys(inp) == [k] && LatestKeys(inp) == [k];
    OneKeyReadable(inp, k);
    ComparisonOutcomes(inp);
    OnlyKey(inp, k);
    OneKeyReport(inp, k);
    var r := ReportRows(inp)[0];
    assert LastRow(inp.prod, k) == prodRow && LastRow(inp.latest, k) == latestRow;
    assert r.countProd == "5" && r.countLatest == "2";
    assert r.status == "IMPROVED";
  }
}
