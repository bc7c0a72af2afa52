/**
 * The Jira epic rendering (`generate_jira_format.py`): a header with the image and the
 * row count, a summary line per severity present, one story per Critical row and then per
 * High row, and one story per package that has Medium or Low rows, the stories numbered
 * consecutively from 1. The epic is its list of lines; the file holds them joined by "\n".
 */
module Jira {
  import opened Wrappers
  import opened Text
  import opened Collections
  import opened Records

  function SeverityOf(r: TrackingRow): string { r.severity }
  function PackageOf(r: TrackingRow): string { r.packageName }

  /** `severity_groups[severity]`: the rows of one severity, in input order. */
  function Group(data: seq<TrackingRow>, severity: string): seq<TrackingRow> {
    Members(data, SeverityOf, severity)
  }

  const SeverityOrder: seq<string> := ["Critical", "High", "Medium", "Low", "Unknown"]

  // ---------------------------------------------------------------------------
  // The header and the summary by severity
  // ---------------------------------------------------------------------------

  /** The epic's opening block: title, image, total, and the summary heading. */
  function HeaderLines(data: seq<TrackingRow>): (ls: seq<string>)
    ensures |ls| == 7
    ensures ls[2] == "*Image:* " + (if data == [] then "Unknown" else data[0].image)
    ensures |ls[3]| > 25 && ls[3][..25] == "*Total Vulnerabilities:* " && ParseNat(ls[3][25..]) == |data|
  {
    ParseNatToString(|data|);
    [ "h1. Security Remediation Epic - Container Image Vulnerabilities",
      "",
      "*Image:* " + (if data == [] then "Unknown" else data[0].image),
      "*Total Vulnerabilities:* " + NatToString(|data|),
      "",
      "h2. Summary by Severity",
      "" ]
  }

  function SummaryLine(severity: string, count: nat): string {
    "* *" + severity + ":* " + NatToString(count) + " vulnerabilities"
  }

  /** The summary lines for the severities `sevs`, skipping those without rows. */
  function SummaryLines(data: seq<TrackingRow>, sevs: seq<string>): (ls: seq<string>)
    ensures |ls| <= |sevs|
    decreases |sevs|
  {
    if sevs == [] then []
    else
      var s := sevs[|sevs| - 1];
      SummaryLines(data, sevs[..|sevs| - 1])
        + (if s in GroupKeys(data, SeverityOf) then [SummaryLine(s, |Group(data, s)|)] else [])
  }

  /** The severities of `sevs` that have rows, in the order of `sevs`. */
  function Present(data: seq<TrackingRow>, sevs: seq<string>): (ps: seq<string>)
    ensures forall s :: s in ps <==> s in sevs && |Group(data, s)| > 0
    decreases |sevs|
  {
    if sevs == [] then []
    else
      var s := sevs[|sevs| - 1];
      MembersNonEmpty(data, SeverityOf, s);
      Present(data, sevs[..|sevs| - 1]) + (if s in GroupKeys(data, SeverityOf) then [s] else [])
  }

  /** The summary lists exactly the present severities in order, each with its row count. */
  lemma {:induction false} SummaryListsPresent(data: seq<TrackingRow>, sevs: seq<string>)
    ensures var ps := Present(data, sevs);
      SummaryLines(data, sevs) == seq(|ps|, i requires 0 <= i < |ps| => SummaryLine(ps[i], |Group(data, ps[i])|))
    decreases |sevs|
  {
    if sevs != [] {
      SummaryListsPresent(data, sevs[..|sevs| - 1]);
    }
  }

  /**
   * When every row has one of the five severities, the counts of the summary add up to
   * the number of rows.
   */
  lemma SummaryCountsAll(data: seq<TrackingRow>)
    requires forall i :: 0 <= i < |data| ==> data[i].severity in SeverityOrder
    ensures TotalSize(data, SeverityOf, Present(data, SeverityOrder)) == |data|
  {
    SeverityOrderDistinct();
    PresentCountsAll(data, SeverityOrder);
  }

  /** For distinct severities covering every row, the present ones' counts add up to the row count. */
  lemma PresentCountsAll(data: seq<TrackingRow>, sevs: seq<string>)
    requires forall i, j :: 0 <= i < j < |sevs| ==> sevs[i] != sevs[j]
    requires forall i :: 0 <= i < |data| ==> data[i].severity in sevs
    ensures TotalSize(data, SeverityOf, Present(data, sevs)) == |data|
  {
    var ps, ks := Present(data, sevs), GroupKeys(data, SeverityOf);
    PresentDistinct(data, sevs);
    PresentAreKeys(data, sevs);
    SameKeysSameTotal(data, ps, ks);
    GroupSizesSum(data, SeverityOf);
  }

  lemma PresentAreKeys(data: seq<TrackingRow>, sevs: seq<string>)
    requires forall i :: 0 <= i < |data| ==> data[i].severity in sevs
    ensures forall k :: k in Present(data, sevs) <==> k in GroupKeys(data, SeverityOf)
  {
    forall k ensures k in Present(data, sevs) <==> k in GroupKeys(data, SeverityOf) {
      MembersNonEmpty(data, SeverityOf, k);
      if k in GroupKeys(data, SeverityOf) {
        var i :| 0 <= i < |data| && SeverityOf(data[i]) == k;
        assert k in sevs;
      }
    }
  }

  /** The five severities are different (their lengths are). */
  lemma SeverityOrderDistinct()
    ensures forall i, j :: 0 <= i < j < |SeverityOrder| ==> SeverityOrder[i] != SeverityOrder[j]
  {
    forall i, j | 0 <= i < j < |SeverityOrder| ensures SeverityOrder[i] != SeverityOrder[j] {
      assert |SeverityOrder[i]| != |SeverityOrder[j]|;
    }
  }

  /** Summing the group sizes over two lists of the same distinct keys gives the same total. */
  lemma SameKeysSameTotal(data: seq<TrackingRow>, a: seq<string>, b: seq<string>)
    requires forall i, j :: 0 <= i < j < |a| ==> a[i] != a[j]
    requires forall i, j :: 0 <= i < j < |b| ==> b[i] != b[j]
    requires forall k :: k in a <==> k in b
    ensures TotalSize(data, SeverityOf, a) == TotalSize(data, SeverityOf, b)
  {
    DistinctSameLength(a, b);
    TotalSizeReordered(data, SeverityOf, a, b);
  }

  lemma {:induction false} PresentDistinct(data: seq<TrackingRow>, sevs: seq<string>)
    requires forall i, j :: 0 <= i < j < |sevs| ==> sevs[i] != sevs[j]
    ensures forall i, j :: 0 <= i < j < |Present(data, sevs)| ==> Present(data, sevs)[i] != Present(data, sevs)[j]
    decreases |sevs|
  {
    if sevs != [] {
      var init, s := sevs[..|sevs| - 1], sevs[|sevs| - 1];
      PresentDistinct(data, init);
      assert s !in init;
      assert s !in Present(data, init);
    }
  }

  /** Two lists without repeats and with the same elements have the same length. */
  lemma DistinctSameLength(a: seq<string>, b: seq<string>)
    requires forall i, j :: 0 <= i < j < |a| ==> a[i] != a[j]
    requires forall i, j :: 0 <= i < j < |b| ==> b[i] != b[j]
    requires forall k :: k in a <==> k in b
    ensures |a| == |b|
  {
    DistinctLength(a);
    DistinctLength(b);
    assert Elems(a) == Elems(b);
  }

  // ---------------------------------------------------------------------------
  // The priority stories
  // ---------------------------------------------------------------------------

  /** Line `i` of story `n` for one Critical or High row. */
  function PriorityStoryLine(n: nat, v: TrackingRow, i: nat): (l: string)
    requires i < 18
    ensures i == 0 ==> StartsWith(l, "h4. Story " + NatToString(n) + ": Fix ")
    ensures i == 1 || i == 6 || i == 12 || i == 15 || i == 17 ==> l == ""
    ensures i == 14 ==> l == v.description
  {
    match i
    case 0 => "h4. Story " + NatToString(n) + ": Fix " + v.vulnerabilityId + " in " + v.packageName
    case 2 => "*Vulnerability ID:* " + v.vulnerabilityId
    case 3 => "*Package:* " + v.packageName + " (" + v.currentVersion + ")"
    case 4 => "*Severity:* " + v.severity + " (CVSS: " + v.cvssScore + ")"
    case 5 => "*Fixed Version:* " + v.fixedVersion
    case 7 => "*Acceptance Criteria:*"
    case 8 => "- [ ] Update " + v.packageName + " to fixed version"
    case 9 => "- [ ] Verify vulnerability is resolved"
    case 10 => "- [ ] Update container image"
    case 11 => "- [ ] Deploy and test"
    case 13 => "*Description:*"
    case 14 => v.description
    case 16 => "---"
    case _ => ""
  }

  /** The 18 lines of story `n` for one Critical or High row. */
  function PriorityStory(n: nat, v: TrackingRow): (ls: seq<string>)
    ensures |ls| == 18
  {
    seq(18, i requires 0 <= i < 18 => PriorityStoryLine(n, v, i))
  }

  /** Stories `n`, `n + 1`, ... for the rows `vs` in order. */
  function PriorityStories(vs: seq<TrackingRow>, n: nat): seq<string>
    decreases |vs|
  {
    if vs == [] then []
    else PriorityStories(vs[..|vs| - 1], n) + PriorityStory(n + |vs| - 1, vs[|vs| - 1])
  }

  lemma PriorityStoriesStep(before: seq<string>, vs: seq<TrackingRow>, n: nat, i: nat, m: nat)
    requires i < |vs| && m == n + i
    ensures before + PriorityStories(vs[..i + 1], n) == before + PriorityStories(vs[..i], n) + PriorityStory(m, vs[i])
  {
    PrefixOfPrefix(vs, i);
    AppendAssoc(before, PriorityStories(vs[..i], n), PriorityStory(m, vs[i]));
  }

  /**
   * The stories are numbered consecutively: the block for `vs` has 18 lines per row, and
   * the heading of the `i`-th of them is story `n + i`, naming that row's vulnerability.
   */
  lemma {:induction false} PriorityStoriesNumbered(vs: seq<TrackingRow>, n: nat, i: nat)
    requires i < |vs|
    ensures |PriorityStories(vs, n)| == 18 * |vs|
    ensures PriorityStories(vs, n)[18 * i]
         == "h4. Story " + NatToString(n + i) + ": Fix " + vs[i].vulnerabilityId + " in " + vs[i].packageName
    decreases |vs|
  {
    var init := vs[..|vs| - 1];
    if i < |init| {
      PriorityStoriesNumbered(init, n, i);
    } else {
      PriorityStoriesLength(init, n);
    }
  }

  lemma {:induction false} PriorityStoriesLength(vs: seq<TrackingRow>, n: nat)
    ensures |PriorityStories(vs, n)| == 18 * |vs|
    decreases |vs|
  {
    if vs != [] {
      PriorityStoriesLength(vs[..|vs| - 1], n);
    }
  }

  /** A severity's section: a heading and its stories, or nothing when it has no rows. */
  function Section(severity: string, vs: seq<TrackingRow>, n: nat): seq<string> {
    if vs == [] then [] else ["h3. " + severity + " Severity Vulnerabilities", ""] + PriorityStories(vs, n)
  }

  // ---------------------------------------------------------------------------
  // The Medium/Low stories, one per package
  // ---------------------------------------------------------------------------

  predicate Grouped(v: TrackingRow) { v.severity == "Medium" || v.severity == "Low" }

  /** The package names of some rows. */
  function PackagesOf(vs: seq<TrackingRow>): (ps: set<string>)
    ensures forall p :: p in ps <==> exists i :: 0 <= i < |vs| && vs[i].packageName == p
    decreases |vs|
  {
    if vs == [] then {}
    else
      var init := vs[..|vs| - 1];
      assert forall i :: 0 <= i < |init| ==> init[i] == vs[i];
      PackagesOf(init) + {vs[|vs| - 1].packageName}
  }

  /** `medium_low_packages`: the packages of the Medium rows and of the Low rows. */
  function GroupedPackages(data: seq<TrackingRow>): set<string> {
    PackagesOf(Group(data, "Medium")) + PackagesOf(Group(data, "Low"))
  }

  /** The Medium and Low rows of a list, in order. */
  function GroupedOnly(vs: seq<TrackingRow>): (r: seq<TrackingRow>)
    ensures forall i :: 0 <= i < |r| ==> Grouped(r[i]) && r[i] in vs
    ensures forall v :: v in vs && Grouped(v) ==> v in r
    decreases |vs|
  {
    if vs == [] then []
    else
      var init := vs[..|vs| - 1];
      assert forall v :: v in init ==> v in vs;
      assert vs == init + [vs[|vs| - 1]];
      GroupedOnly(init) + (if Grouped(vs[|vs| - 1]) then [vs[|vs| - 1]] else [])
  }

  /** `vulns_for_package`: the package's rows that are Medium or Low. */
  function PackageRows(data: seq<TrackingRow>, p: string): seq<TrackingRow> {
    GroupedOnly(Members(data, PackageOf, p))
  }

  function VulnLine(v: TrackingRow): string {
    "- " + v.vulnerabilityId + " (" + v.severity + ", CVSS: " + v.cvssScore + ")"
  }

  function VulnLines(vs: seq<TrackingRow>): (ls: seq<string>)
    ensures |ls| == |vs| && forall i :: 0 <= i < |vs| ==> ls[i] == VulnLine(vs[i])
  {
    seq(|vs|, i requires 0 <= i < |vs| => VulnLine(vs[i]))
  }

  /** Line `i` of the heading of story `n` for a package. */
  function PackageHeadLine(n: nat, p: string, i: nat): string
    requires i < 4
  {
    match i
    case 0 => "h4. Story " + NatToString(n) + ": Remediate vulnerabilities in " + p
    case 1 => ""
    case 2 => "*Package:* " + p
    case _ => "*Vulnerabilities:*"
  }

  /** Line `i` of the acceptance criteria closing a package's story. */
  function PackageFootLine(p: string, i: nat): string
    requires i < 9
  {
    match i
    case 1 => "*Acceptance Criteria:*"
    case 2 => "- [ ] Analyze all vulnerabilities in " + p
    case 3 => "- [ ] Update " + p + " to latest secure version"
    case 4 => "- [ ] Verify all vulnerabilities are resolved"
    case 5 => "- [ ] Update container image"
    case 7 => "---"
    case _ => ""
  }

  /** The lines of story `n` for a package: a heading, one line per row, the criteria. */
  function PackageStory(n: nat, p: string, vs: seq<TrackingRow>): (ls: seq<string>)
    ensures |ls| == |vs| + 13
    ensures ls[0] == "h4. Story " + NatToString(n) + ": Remediate vulnerabilities in " + p
    ensures forall j :: 0 <= j < |vs| ==> ls[4 + j] == VulnLine(vs[j])
  {
    seq(4, i requires 0 <= i < 4 => PackageHeadLine(n, p, i))
    + VulnLines(vs)
    + seq(9, i requires 0 <= i < 9 => PackageFootLine(p, i))
  }

  /** Stories `n`, `n + 1`, ... for the packages `ps` in order. */
  function PackageStories(data: seq<TrackingRow>, ps: seq<string>, n: nat): seq<string>
    decreases |ps|
  {
    if ps == [] then []
    else
      var p := ps[|ps| - 1];
      PackageStories(data, ps[..|ps| - 1], n) + PackageStory(n + |ps| - 1, p, PackageRows(data, p))
  }

  /** Every package of `medium_low_packages` has Medium/Low rows, so each one gets its story. */
  lemma GroupedPackageHasRows(data: seq<TrackingRow>, p: string)
    requires p in GroupedPackages(data)
    ensures PackageRows(data, p) != []
  {
    if p in PackagesOf(Group(data, "Medium")) {
      PackageHasRows(data, "Medium", p);
    } else {
      PackageHasRows(data, "Low", p);
    }
  }

  lemma PackageHasRows(data: seq<TrackingRow>, s: string, p: string)
    requires s == "Medium" || s == "Low"
    requires p in PackagesOf(Group(data, s))
    ensures PackageRows(data, p) != []
  {
    var i :| 0 <= i < |Group(data, s)| && Group(data, s)[i].packageName == p;
    var v := Group(data, s)[i];
    var j :| 0 <= j < |data| && data[j] == v;
    MembersComplete(data, PackageOf, j);
    assert v in Members(data, PackageOf, p) && Grouped(v);
  }

  /** Every Medium or Low row is listed in the story of its package. */
  lemma GroupedRowListed(data: seq<TrackingRow>, j: nat)
    requires j < |data| && Grouped(data[j])
    ensures data[j].packageName in GroupedPackages(data)
    ensures data[j] in PackageRows(data, data[j].packageName)
  {
    MembersComplete(data, PackageOf, j);
    MembersComplete(data, SeverityOf, j);
    var s := data[j].severity;
    var k :| 0 <= k < |Group(data, s)| && Group(data, s)[k] == data[j];
  }

  // ---------------------------------------------------------------------------
  // generate_jira_epic
  // ---------------------------------------------------------------------------

  /** The whole epic: the lines `generate_jira_epic` writes, joined by "\n". */
  ghost function EpicLines(data: seq<TrackingRow>): (ls: seq<string>)
    ensures |ls| >= 12 && ls[..7] == HeaderLines(data)
  {
    var critical, high := Group(data, "Critical"), Group(data, "High");
    var header := HeaderLines(data);
    var s1 := header + SummaryLines(data, SeverityOrder);
    var s2 := s1 + [""];
    var s3 := s2 + ["h2. Priority Stories", ""];
    var s4 := s3 + Section("Critical", critical, 1);
    var s5 := s4 + Section("High", high, 1 + |critical|);
    var s6 := s5 + ["h2. Medium/Low Priority - Grouped by Package", ""];
    var ls := s6 + PackageStories(data, SortedOf(GroupedPackages(data)), 1 + |critical| + |high|);
    PrefixOfAppend(header, SummaryLines(data, SeverityOrder), 7);
    PrefixOfAppend(s1, [""], 7);
    PrefixOfAppend(s2, ["h2. Priority Stories", ""], 7);
    PrefixOfAppend(s3, Section("Critical", critical, 1), 7);
    PrefixOfAppend(s4, Section("High", high, 1 + |critical|), 7);
    PrefixOfAppend(s5, ["h2. Medium/Low Priority - Grouped by Package", ""], 7);
    PrefixOfAppend(s6, PackageStories(data, SortedOf(GroupedPackages(data)), 1 + |critical| + |high|), 7);
    ls
  }

  /**
   * `generate_jira_epic` on the rows of the tracking CSV, or `None` for a file that does
   * not exist (nothing is written). `created` is `story_counter - 1`: one story per
   * Critical row, one per High row and one per package with Medium or Low rows, so rows
   * of any other severity create none.
   */
  method GenerateJiraEpic(input: Option<seq<TrackingRow>>) returns (output: Option<seq<string>>, created: nat)
    ensures input.None? ==> output.None? && created == 0
    ensures input.Some? ==> output == Some(EpicLines(input.value))
    ensures input.Some? ==> var data := input.value;
      created == |Group(data, "Critical")| + |Group(data, "High")| + |GroupedPackages(data)|
  {
    if input.None? {
      return None, 0;
    }
    var content, counter := BuildEpic(input.value);
    return Some(content), counter - 1;
  }

  /** The epic for the rows of a CSV file that exists, and the final `story_counter`. */
  method BuildEpic(data: seq<TrackingRow>) returns (content: seq<string>, counter: nat)
    ensures content == EpicLines(data)
    ensures counter == 1 + |Group(data, "Critical")| + |Group(data, "High")| + |GroupedPackages(data)|
  {
    var sevKeys, severityGroups := GroupBy(data, SeverityOf);
    var pkgKeys, packageVulns := GroupBy(data, PackageOf);
    content := OpeningLines(data, severityGroups);
    content, counter := PriorityStoriesPart(content, data, severityGroups);
    content := content + ["h2. Medium/Low Priority - Grouped by Package", ""];
    PackageStoriesFrom(data, SortedOf(GroupedPackages(data)), counter, 1 + |Group(data, "Critical")| + |Group(data, "High")|);
    content, counter := PackageStoriesPart(content, data, severityGroups, packageVulns, counter);
    EpicLinesParts(data);
  }

  /** The Medium/Low part: the packages, sorted, and a story for each. */
  method PackageStoriesPart(content: seq<string>, data: seq<TrackingRow>, severityGroups: map<string, seq<TrackingRow>>,
                            packageVulns: map<string, seq<TrackingRow>>, counter: nat)
    returns (result: seq<string>, next: nat)
    requires GroupedBy(data, SeverityOf, severityGroups)
    requires GroupedBy(data, PackageOf, packageVulns)
    ensures result == content + PackageStories(data, SortedOf(GroupedPackages(data)), counter)
    ensures next == counter + |GroupedPackages(data)|
  {
    var packages := MediumLowPackages(data, severityGroups);
    var sorted := SortSet(packages);
    result, next := AppendPackageStories(content, data, sorted, packageVulns, counter);
    StrictlySortedLength(sorted);
  }

  /** The epic header, the summary by severity and the heading of the priority stories. */
  method OpeningLines(data: seq<TrackingRow>, severityGroups: map<string, seq<TrackingRow>>) returns (content: seq<string>)
    requires GroupedBy(data, SeverityOf, severityGroups)
    ensures content == HeaderLines(data) + SummaryLines(data, SeverityOrder) + [""] + ["h2. Priority Stories", ""]
  {
    content := HeaderLines(data);
    content := AppendSummary(content, data, severityGroups);
    content := content + [""] + ["h2. Priority Stories", ""];
  }

  /** `story_counter = 1` and the Critical and High sections, in that order. */
  method PriorityStoriesPart(content: seq<string>, data: seq<TrackingRow>, severityGroups: map<string, seq<TrackingRow>>)
    returns (result: seq<string>, counter: nat)
    requires GroupedBy(data, SeverityOf, severityGroups)
    ensures result == content + Section("Critical", Group(data, "Critical"), 1)
      + Section("High", Group(data, "High"), 1 + |Group(data, "Critical")|)
    ensures counter == 1 + |Group(data, "Critical")| + |Group(data, "High")|
  {
    counter := 1;
    MembersNonEmpty(data, SeverityOf, "Critical");
    MembersNonEmpty(data, SeverityOf, "High");
    ghost var critical, high := Group(data, "Critical"), Group(data, "High");
    assert GroupOrEmpty(severityGroups, "Critical") == critical;
    assert GroupOrEmpty(severityGroups, "High") == high;
    SectionFrom("Critical", critical, counter, 1);
    result, counter := AppendSection(content, "Critical", GroupOrEmpty(severityGroups, "Critical"), counter);
    SectionFrom("High", high, counter, 1 + |critical|);
    result, counter := AppendSection(result, "High", GroupOrEmpty(severityGroups, "High"), counter);
  }

  /** `medium_low_packages`, collected from the Medium rows and then the Low rows. */
  method MediumLowPackages(data: seq<TrackingRow>, severityGroups: map<string, seq<TrackingRow>>) returns (packages: set<string>)
    requires GroupedBy(data, SeverityOf, severityGroups)
    ensures packages == GroupedPackages(data)
  {
    MembersNonEmpty(data, SeverityOf, "Medium");
    MembersNonEmpty(data, SeverityOf, "Low");
    packages := AddPackages({}, GroupOrEmpty(severityGroups, "Medium"));
    packages := AddPackages(packages, GroupOrEmpty(severityGroups, "Low"));
  }

  /** The epic, part by part, as `generate_jira_epic` appends them. */
  lemma EpicLinesParts(data: seq<TrackingRow>)
    ensures EpicLines(data) == HeaderLines(data) + SummaryLines(data, SeverityOrder) + [""] + ["h2. Priority Stories", ""]
        + Section("Critical", Group(data, "Critical"), 1)
        + Section("High", Group(data, "High"), 1 + |Group(data, "Critical")|)
        + ["h2. Medium/Low Priority - Grouped by Package", ""]
        + PackageStories(data, SortedOf(GroupedPackages(data)), 1 + |Group(data, "Critical")| + |Group(data, "High")|)
  {
  }

  lemma SectionFrom(severity: string, vs: seq<TrackingRow>, n: nat, m: nat)
    requires n == m
    ensures Section(severity, vs, n) == Section(severity, vs, m)
  {
  }

  lemma PackageStoriesFrom(data: seq<TrackingRow>, ps: seq<string>, n: nat, m: nat)
    requires n == m
    ensures PackageStories(data, ps, n) == PackageStories(data, ps, m)
  {
  }

  /**
   * The loop over `sorted(medium_low_packages)`: a story for each package whose
   * Medium/Low rows are not empty, which is every package of the set.
   */
  method AppendPackageStories(content: seq<string>, data: seq<TrackingRow>, sorted: seq<string>,
                              packageVulns: map<string, seq<TrackingRow>>, counter: nat)
    returns (result: seq<string>, next: nat)
    requires forall p :: p in sorted ==> p in GroupedPackages(data)
    requires GroupedBy(data, PackageOf, packageVulns)
    ensures result == content + PackageStories(data, sorted, counter)
    ensures next == counter + |sorted|
  {
    result, next := content, counter;
    for k := 0 to |sorted|
      invariant result == content + PackageStories(data, sorted[..k], counter)
      invariant next == counter + k
    {
      var p := sorted[k];
      GroupedPackageHasRows(data, p);
      MembersNonEmpty(data, PackageOf, p);
      var vulnsForPackage := GroupedOnly(packageVulns[p]);
      PackageStoriesStep(content, data, sorted, counter, k, next, vulnsForPackage);
      if vulnsForPackage != [] {
        result := result + PackageStory(next, p, vulnsForPackage);
        next := next + 1;
      }
    }
    PrefixAll(sorted);
  }

  /** `groups` is the `defaultdict(list)` of the rows by `key`. */
  ghost predicate GroupedBy(data: seq<TrackingRow>, key: TrackingRow -> string, groups: map<string, seq<TrackingRow>>) {
    && (forall k :: k in groups <==> k in GroupKeys(data, key))
    && (forall k :: k in groups ==> groups[k] == Members(data, key, k))
  }

  /** `severity_groups.get(severity, [])`. */
  function GroupOrEmpty(groups: map<string, seq<TrackingRow>>, severity: string): seq<TrackingRow> {
    if severity in groups then groups[severity] else []
  }

  /** The summary loop: a line for each severity of the fixed order that has rows. */
  method AppendSummary(content: seq<string>, data: seq<TrackingRow>, groups: map<string, seq<TrackingRow>>)
    returns (result: seq<string>)
    requires GroupedBy(data, SeverityOf, groups)
    ensures result == content + SummaryLines(data, SeverityOrder)
  {
    result := content;
    for k := 0 to |SeverityOrder|
      invariant result == content + SummaryLines(data, SeverityOrder[..k])
    {
      var severity := SeverityOrder[k];
      AppendSummaryStep(content, data, groups, SeverityOrder, k, result);
      if severity in groups {
        result := result + [SummaryLine(severity, |groups[severity]|)];
      }
    }
    PrefixAll(SeverityOrder);
  }

  /** One iteration of the summary loop appends the line of `sevs[k]` exactly when it has rows. */
  lemma AppendSummaryStep(content: seq<string>, data: seq<TrackingRow>, groups: map<string, seq<TrackingRow>>,
                          sevs: seq<string>, k: nat, result: seq<string>)
    requires GroupedBy(data, SeverityOf, groups) && k < |sevs|
    requires result == content + SummaryLines(data, sevs[..k])
    ensures (if sevs[k] in groups then result + [SummaryLine(sevs[k], |groups[sevs[k]]|)] else result) ==
      content + SummaryLines(data, sevs[..k + 1])
  {
    SummaryStep(data, sevs, k);
    if sevs[k] in groups {
      AppendAssoc(content, SummaryLines(data, sevs[..k]), [SummaryLine(sevs[k], |groups[sevs[k]]|)]);
    }
  }

  lemma SummaryStep(data: seq<TrackingRow>, sevs: seq<string>, k: nat)
    requires k < |sevs|
    ensures SummaryLines(data, sevs[..k + 1]) == SummaryLines(data, sevs[..k])
      + (if sevs[k] in GroupKeys(data, SeverityOf) then [SummaryLine(sevs[k], |Group(data, sevs[k])|)] else [])
  {
    assert sevs[..k + 1][..k] == sevs[..k];
  }

  lemma PackageStoriesStep(before: seq<string>, data: seq<TrackingRow>, ps: seq<string>, n: nat, k: nat,
                           m: nat, rows: seq<TrackingRow>)
    requires k < |ps| && m == n + k && rows == PackageRows(data, ps[k])
    ensures before + PackageStories(data, ps[..k + 1], n) == before + PackageStories(data, ps[..k], n) + PackageStory(m, ps[k], rows)
  {
    assert ps[..k + 1][..k] == ps[..k];
    AppendAssoc(before, PackageStories(data, ps[..k], n), PackageStory(m, ps[k], rows));
  }

  /** One severity's section: its heading and one story per row, counting each. */
  method AppendSection(content: seq<string>, severity: string, vs: seq<TrackingRow>, counter: nat)
    returns (result: seq<string>, next: nat)
    ensures result == content + Section(severity, vs, counter)
    ensures next == counter + |vs|
  {
    if vs == [] {
      return content, counter;
    }
    var heading := ["h3. " + severity + " Severity Vulnerabilities", ""];
    result, next := AppendStories(content + heading, vs, counter);
    AppendAssoc(content, heading, PriorityStories(vs, counter));
  }

  /** The story loop of a section: story `counter + i` for the `i`-th row. */
  method AppendStories(content: seq<string>, vs: seq<TrackingRow>, counter: nat)
    returns (result: seq<string>, next: nat)
    ensures result == content + PriorityStories(vs, counter)
    ensures next == counter + |vs|
  {
    result, next := content, counter;
    for i := 0 to |vs|
      invariant result == content + PriorityStories(vs[..i], counter)
      invariant next == counter + i
    {
      PriorityStoriesStep(content, vs, counter, i, next);
      result := result + PriorityStory(next, vs[i]);
      next := next + 1;
    }
    PrefixAll(vs);
  }

  /** `medium_low_packages.add(vuln['Package_Name'])` for every row of a group. */
  method AddPackages(acc: set<string>, vs: seq<TrackingRow>) returns (r: set<string>)
    ensures r == acc + PackagesOf(vs)
  {
    r := acc;
    for i := 0 to |vs|
      invariant r == acc + PackagesOf(vs[..i])
    {
      PackagesOfStep(vs, i);
      r := r + {vs[i].packageName};
    }
    PrefixAll(vs);
  }

  lemma PackagesOfStep(vs: seq<TrackingRow>, i: nat)
    requires i < |vs|
    ensures PackagesOf(vs[..i + 1]) == PackagesOf(vs[..i]) + {vs[i].packageName}
  {
    PrefixOfPrefix(vs, i);
  }
}
