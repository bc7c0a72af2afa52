/**
 * The summary stage: the tracking rows grouped by package name and version, one summary
 * row per group (most severe finding, highest score, counts per severity, known fixes and
 * a derived priority), sorted by priority, then severity, then score.
 */
module Summary {
  import opened Text
  import opened Collections
  import opened Ratings
  import opened Records

  /** `f"{Package_Name}@{Current_Version}"`, the grouping key. */
  function PackageKey(r: TrackingRow): string {
    r.packageName + "@" + r.currentVersion
  }

  /** The same key read off a summary row. */
  function RowKey(r: SummaryRow): string {
    r.packageName + "@" + r.currentVersion
  }

  function SeverityOf(r: TrackingRow): string { r.severity }

  // ---------------------------------------------------------------------------
  // Rollups over one group
  // ---------------------------------------------------------------------------

  /**
   * The position of `min(severities, key=rank)`: a row of least rank, and the first such
   * row, since `min` keeps the earliest of equal keys.
   */
  function MostSevere(vs: seq<TrackingRow>): (k: nat)
    requires |vs| > 0
    ensures k < |vs|
    ensures forall j :: 0 <= j < |vs| ==> SeverityRank(vs[k].severity) <= SeverityRank(vs[j].severity)
    ensures forall j :: 0 <= j < k ==> SeverityRank(vs[j].severity) > SeverityRank(vs[k].severity)
  {
    if |vs| == 1 then 0
    else
      var m := MostSevere(vs[..|vs| - 1]);
      if SeverityRank(vs[|vs| - 1].severity) < SeverityRank(vs[m].severity) then |vs| - 1 else m
  }

  function HighestSeverity(vs: seq<TrackingRow>): string
    requires |vs| > 0
  {
    vs[MostSevere(vs)].severity
  }

  /**
   * `max(cvss_scores) if cvss_scores else 0` in tenths, over the scores that look numeric:
   * no numeric score is higher, and a positive result is one of them.
   */
  function MaxTenths(vs: seq<TrackingRow>): (m: nat)
    ensures forall j :: 0 <= j < |vs| && IsNumericText(vs[j].cvssScore) ==> Tenths(vs[j].cvssScore) <= m
    ensures m > 0 ==> exists j :: 0 <= j < |vs| && IsNumericText(vs[j].cvssScore) && Tenths(vs[j].cvssScore) == m
  {
    if vs == [] then 0
    else
      var init, last := vs[..|vs| - 1], vs[|vs| - 1];
      var m := MaxTenths(init);
      assert forall j :: 0 <= j < |init| ==> init[j] == vs[j];
      if IsNumericText(last.cvssScore) && Tenths(last.cvssScore) > m then Tenths(last.cvssScore) else m
  }

  /** The Max_CVSS_Score cell: the score to one decimal, or "Unknown" when it is 0. */
  function MaxCvssText(m: nat): (t: string)
    ensures t == "Unknown" <==> m == 0
    ensures m > 0 ==> IsNumericText(t) && Tenths(t) == m
  {
    if m > 0 then FormatTenthsRoundTrip(m); FormatTenths(m) else "Unknown"
  }

  /** A Fixed_Version cell that names a fix: neither "Check Manually" nor blank. */
  predicate NamesFix(fv: string) {
    fv != "Check Manually" && Strip(fv) != ""
  }

  function FixedOf(r: TrackingRow): string { r.fixedVersion }

  /** The `fixed_versions` set of a group: every cell that names a fix. */
  function FixedSet(vs: seq<TrackingRow>): set<string> {
    ValuesWhere(vs, FixedOf, NamesFix)
  }

  /** The set holds exactly the cells of the group that name a fix. */
  lemma FixedSetMembers(vs: seq<TrackingRow>, f: string)
    ensures f in FixedSet(vs) <==> exists j :: 0 <= j < |vs| && vs[j].fixedVersion == f && NamesFix(f)
  {
    ValuesWhereMembers(vs, FixedOf, NamesFix, f);
  }

  /** The severities that occur in a group. */
  function Severities(vs: seq<TrackingRow>): set<string> {
    set j | 0 <= j < |vs| :: vs[j].severity
  }

  /** `f"{sev}: {count}"`. */
  function BreakdownEntry(sev: string, count: nat): string {
    sev + ": " + NatToString(count)
  }

  /** One entry per severity of `sevs`, with the number of rows of `vs` that carry it. */
  function BreakdownEntries(vs: seq<TrackingRow>, sevs: seq<string>): seq<string> {
    if sevs == [] then []
    else [BreakdownEntry(sevs[0], |Members(vs, SeverityOf, sevs[0])|)] + BreakdownEntries(vs, sevs[1..])
  }

  /** The Severity_Breakdown cell: the entries in alphabetical order of severity, joined by ", ". */
  ghost function Breakdown(vs: seq<TrackingRow>): (b: string)
    ensures b == "" <==> vs == []
  {
    var sevs := SortedOf(Severities(vs));
    BreakdownBlank(vs, sevs);
    Join(BreakdownEntries(vs, sevs), ", ")
  }

  /** The entries of the severities that occur join to the empty text exactly for an empty group. */
  lemma BreakdownBlank(vs: seq<TrackingRow>, sevs: seq<string>)
    requires StrictlySorted(sevs) && Elems(sevs) == Severities(vs)
    ensures Join(BreakdownEntries(vs, sevs), ", ") == "" <==> vs == []
  {
    StrictlySortedLength(sevs);
    if vs == [] {
      assert Severities(vs) == {};
    } else {
      assert vs[0].severity in Severities(vs);
      var entries := BreakdownEntries(vs, sevs);
      assert entries[0] == BreakdownEntry(sevs[0], |Members(vs, SeverityOf, sevs[0])|);
      assert |entries[0]| >= 2;
    }
  }

  /** The counts listed in the breakdown add up to the size of the group. */
  lemma BreakdownTotals(vs: seq<TrackingRow>)
    ensures TotalSize(vs, SeverityOf, SortedOf(Severities(vs))) == |vs|
  {
    var keys, sorted := GroupKeys(vs, SeverityOf), SortedOf(Severities(vs));
    assert Elems(keys) == Severities(vs);
    assert |keys| == |sorted| by {
      StrictlySortedLength(sorted);
      DistinctLength(keys);
    }
    forall k ensures k in keys <==> k in sorted {
      assert k in Elems(keys) <==> k in keys;
      assert k in Elems(sorted) <==> k in sorted;
    }
    StrictlySortedDistinct(sorted);
    TotalSizeReordered(vs, SeverityOf, keys, sorted);
    GroupSizesSum(vs, SeverityOf);
  }

  /** `'High' if highest in ['Critical', 'High'] else 'Medium' if highest == 'Medium' else 'Low'`. */
  function Priority(highest: string): (p: string)
    ensures p == "High" <==> SeverityRank(highest) <= 1
    ensures p == "Medium" <==> SeverityRank(highest) == 2
    ensures p == "Low" <==> SeverityRank(highest) >= 3
  {
    if highest == "Critical" || highest == "High" then "High"
    else if highest == "Medium" then "Medium"
    else "Low"
  }

  predicate HasSeverityIn(vs: seq<TrackingRow>, sevs: set<string>) {
    exists j :: 0 <= j < |vs| && vs[j].severity in sevs
  }

  /**
   * The priority of a group follows its worst row: High when some row is Critical or High,
   * Medium when none is but some row is Medium, Low otherwise.
   */
  lemma GroupPriority(vs: seq<TrackingRow>)
    requires |vs| > 0
    ensures Priority(HighestSeverity(vs)) == "High" <==> HasSeverityIn(vs, {"Critical", "High"})
    ensures Priority(HighestSeverity(vs)) == "Medium" <==>
      !HasSeverityIn(vs, {"Critical", "High"}) && HasSeverityIn(vs, {"Medium"})
    ensures Priority(HighestSeverity(vs)) == "Low" <==> !HasSeverityIn(vs, {"Critical", "High", "Medium"})
  {
    var k := MostSevere(vs);
    if HasSeverityIn(vs, {"Critical", "High"}) {
      var j :| 0 <= j < |vs| && vs[j].severity in {"Critical", "High"};
      assert SeverityRank(vs[j].severity) <= 1;
    }
    if HasSeverityIn(vs, {"Medium"}) {
      var j :| 0 <= j < |vs| && vs[j].severity in {"Medium"};
      assert SeverityRank(vs[j].severity) <= 2;
    }
    assert vs[k].severity in {"Critical", "High"} ==> HasSeverityIn(vs, {"Critical", "High"});
    assert vs[k].severity in {"Medium"} ==> HasSeverityIn(vs, {"Medium"});
    assert HasSeverityIn(vs, {"Critical", "High", "Medium"}) ==>
      HasSeverityIn(vs, {"Critical", "High"}) || HasSeverityIn(vs, {"Medium"});
  }

  /** The summary row of one non-empty group, as `generate_summary` appends it. */
  ghost function Summarize(vs: seq<TrackingRow>): (row: SummaryRow)
    requires |vs| > 0
    ensures RowKey(row) == PackageKey(vs[0]) && row.vulnerabilityCount == |vs|
  {
    var highest := HighestSeverity(vs);
    SummaryRow(
      vs[0].image, vs[0].packageName, vs[0].currentVersion, highest,
      MaxCvssText(MaxTenths(vs)), |vs|, Breakdown(vs), FixedVersionText(FixedSet(vs)),
      Priority(highest), "Not Started", "", "", "", "")
  }

  /** The `fixed_versions` loop and the Fixed_Version cell it leads to. */
  method CollectFixes(vs: seq<TrackingRow>) returns (text: string)
    ensures text == FixedVersionText(FixedSet(vs))
  {
    var fixed: set<string> := {};
    for i := 0 to |vs|
      invariant fixed == FixedSet(vs[..i])
    {
      ValuesWhereStep(vs, FixedOf, NamesFix, i);
      if vs[i].fixedVersion != "Check Manually" && Strip(vs[i].fixedVersion) != "" {
        fixed := fixed + {vs[i].fixedVersion};
      }
    }
    PrefixAll(vs);
    text := "Check Manually";
    if fixed != {} {
      var sorted := SortSet(fixed);
      text := Join(sorted, ", ");
    }
  }

  /** The `vuln_counts` tally and the Severity_Breakdown cell it leads to. */
  method TallyBreakdown(vs: seq<TrackingRow>) returns (text: string)
    ensures text == Breakdown(vs)
  {
    var keys, counts := Tally(vs, SeverityOf);
    TallySeverities(vs, keys);
    var sevs := SortSet(Elems(keys));
    var entries: seq<string> := [];
    for i := 0 to |sevs|
      invariant entries + BreakdownEntries(vs, sevs[i..]) == BreakdownEntries(vs, sevs)
    {
      assert sevs[i] in Elems(sevs);
      EntriesAt(vs, sevs, i, entries, counts[sevs[i]]);
      entries := entries + [BreakdownEntry(sevs[i], counts[sevs[i]])];
    }
    EntriesEnd(vs, sevs);
    assert entries == BreakdownEntries(vs, sevs);
    text := Join(entries, ", ");
  }

  lemma TallySeverities(vs: seq<TrackingRow>, keys: seq<string>)
    requires keys == GroupKeys(vs, SeverityOf)
    ensures Elems(keys) == Severities(vs)
  {
  }

  /** Taking the entry of `sevs[i]` off the front of the remaining entries. */
  lemma EntriesAt(vs: seq<TrackingRow>, sevs: seq<string>, i: nat, entries: seq<string>, count: int)
    requires i < |sevs| && count == |Members(vs, SeverityOf, sevs[i])|
    ensures (entries + [BreakdownEntry(sevs[i], count)]) + BreakdownEntries(vs, sevs[i + 1..]) ==
      entries + BreakdownEntries(vs, sevs[i..])
  {
    assert sevs[i..][1..] == sevs[i + 1..];
  }

  lemma EntriesEnd(vs: seq<TrackingRow>, sevs: seq<string>)
    ensures BreakdownEntries(vs, sevs[|sevs|..]) == []
  {
    assert sevs[|sevs|..] == [];
  }

  /** The body of the per-group loop: the rollups, the fixed versions and the severity tally. */
  method SummarizeGroup(vs: seq<TrackingRow>) returns (row: SummaryRow)
    requires |vs| > 0
    ensures row == Summarize(vs)
  {
    var highest := HighestSeverity(vs);
    var maxCvss := MaxTenths(vs);
    var fixedText := CollectFixes(vs);
    var breakdown := TallyBreakdown(vs);
    row := SummaryRow(
      vs[0].image, vs[0].packageName, vs[0].currentVersion, highest,
      if maxCvss > 0 then FormatTenths(maxCvss) else "Unknown", |vs|, breakdown, fixedText,
      Priority(highest), "Not Started", "", "", "", "");
  }

  // ---------------------------------------------------------------------------
  // All groups, and the sort
  // ---------------------------------------------------------------------------

  /**
   * The summary rows of the groups `ks`, in that order; each row carries its group's key
   * and size.
   */
  ghost function Summaries(data: seq<TrackingRow>, ks: seq<string>): (r: seq<SummaryRow>)
    requires forall k :: k in ks ==> k in GroupKeys(data, PackageKey)
    ensures |r| == |ks|
    ensures forall i :: 0 <= i < |ks| ==>
      RowKey(r[i]) == ks[i] && r[i].vulnerabilityCount == |Members(data, PackageKey, ks[i])|
  {
    if ks == [] then []
    else
      var init, k := ks[..|ks| - 1], ks[|ks| - 1];
      MembersNonEmpty(data, PackageKey, k);
      var m := Members(data, PackageKey, k);
      assert PackageKey(m[0]) == k;
      assert forall i :: 0 <= i < |init| ==> init[i] == ks[i];
      var front, last := Summaries(data, init), Summarize(m);
      SummariesSnoc(data, init, k, front, last);
      InitLast(ks);
      front + [last]
  }

  /** Appending the row of key `k` to the rows of keys `init` gives the rows of `init + [k]`. */
  lemma SummariesSnoc(data: seq<TrackingRow>, init: seq<string>, k: string, front: seq<SummaryRow>, last: SummaryRow)
    requires |front| == |init|
    requires forall i :: 0 <= i < |init| ==>
      RowKey(front[i]) == init[i] && front[i].vulnerabilityCount == |Members(data, PackageKey, init[i])|
    requires RowKey(last) == k && last.vulnerabilityCount == |Members(data, PackageKey, k)|
    ensures var ks, r := init + [k], front + [last];
      forall i :: 0 <= i < |ks| ==>
        RowKey(r[i]) == ks[i] && r[i].vulnerabilityCount == |Members(data, PackageKey, ks[i])|
  {
    var ks, r := init + [k], front + [last];
    forall i | 0 <= i < |ks|
      ensures RowKey(r[i]) == ks[i] && r[i].vulnerabilityCount == |Members(data, PackageKey, ks[i])|
    {
      if i < |init| {
        assert r[i] == front[i] && ks[i] == init[i];
      } else {
        assert r[i] == last && ks[i] == k;
      }
    }
  }

  /** `priority_order.get(p, 3)`. */
  function PriorityRank(p: string): nat {
    if p == "High" then 0 else if p == "Medium" then 1 else if p == "Low" then 2 else 3
  }

  /** `-float(s) if s != 'Unknown' else 0`, in tenths. */
  function CvssKey(s: string): int {
    if s == "Unknown" then 0 else -(Tenths(s) as int)
  }

  /** Compares the sort keys (priority rank, severity rank, minus the score) lexicographically. */
  predicate SummaryLe(a: SummaryRow, b: SummaryRow) {
    var pa, pb := PriorityRank(a.priority), PriorityRank(b.priority);
    var sa, sb := SeverityRank(a.highestSeverity), SeverityRank(b.highestSeverity);
    pa < pb || (pa == pb && (sa < sb || (sa == sb && CvssKey(a.maxCvssScore) <= CvssKey(b.maxCvssScore))))
  }

  lemma SummaryLeTotalPreorder()
    ensures TotalPreorder(SummaryLe)
  {
  }

  /** The output of `generate_summary`: one row per group in first-appearance order, then sorted. */
  ghost function SummaryRows(data: seq<TrackingRow>): seq<SummaryRow> {
    SortBy(Summaries(data, GroupKeys(data, PackageKey)), SummaryLe)
  }

  lemma SummariesStep(data: seq<TrackingRow>, ks: seq<string>, i: nat)
    requires ks == GroupKeys(data, PackageKey) && i < |ks|
    ensures |Members(data, PackageKey, ks[i])| > 0
    ensures Summaries(data, ks[..i + 1]) == Summaries(data, ks[..i]) + [Summarize(Members(data, PackageKey, ks[i]))]
  {
    PrefixSnoc(ks, i);
    MembersNonEmpty(data, PackageKey, ks[i]);
    SummariesAppend(data, ks[..i], ks[i]);
  }

  lemma SummariesAppend(data: seq<TrackingRow>, init: seq<string>, k: string)
    requires (forall x :: x in init ==> x in GroupKeys(data, PackageKey)) && k in GroupKeys(data, PackageKey)
    requires |Members(data, PackageKey, k)| > 0
    ensures Summaries(data, init + [k]) == Summaries(data, init) + [Summarize(Members(data, PackageKey, k))]
  {
    assert (init + [k])[..|init|] == init;
  }

  method GenerateSummary(data: seq<TrackingRow>) returns (rows: seq<SummaryRow>)
    ensures rows == SummaryRows(data)
  {
    var keys, groups := GroupBy(data, PackageKey);
    var summary: seq<SummaryRow> := [];
    for i := 0 to |keys|
      invariant summary == Summaries(data, keys[..i])
    {
      SummariesStep(data, keys, i);
      var row := SummarizeGroup(groups[keys[i]]);
      summary := summary + [row];
    }
    PrefixAll(keys);
    rows := SortBy(summary, SummaryLe);
  }

  // ---------------------------------------------------------------------------
  // Properties of the output
  // ---------------------------------------------------------------------------

  function CountOf(r: SummaryRow): nat { r.vulnerabilityCount }

  /** 1 for the rows whose key is `k`, 0 for the others. */
  function KeyIndicator(k: string): SummaryRow -> nat {
    r => if RowKey(r) == k then 1 else 0
  }

  lemma {:induction false} SummariesCounts(data: seq<TrackingRow>, ks: seq<string>)
    requires forall k :: k in ks ==> k in GroupKeys(data, PackageKey)
    ensures SumBy(Summaries(data, ks), CountOf) == TotalSize(data, PackageKey, ks)
    decreases |ks|
  {
    if ks != [] {
      var init, k := ks[..|ks| - 1], ks[|ks| - 1];
      InitLast(ks);
      SummariesCounts(data, init);
      TotalSizeSnoc(data, PackageKey, init, k);
      var s := Summaries(data, ks);
      SumBySnoc(Summaries(data, init), s[|s| - 1], CountOf);
    }
  }

  lemma {:induction false} SummariesKeyCount(data: seq<TrackingRow>, ks: seq<string>, k: string)
    requires forall k :: k in ks ==> k in GroupKeys(data, PackageKey)
    requires forall i, j :: 0 <= i < j < |ks| ==> ks[i] != ks[j]
    ensures SumBy(Summaries(data, ks), KeyIndicator(k)) == if k in ks then 1 else 0
    decreases |ks|
  {
    if ks != [] {
      var init := ks[..|ks| - 1];
      InitLast(ks);
      SummariesKeyCount(data, init, k);
      var s := Summaries(data, ks);
      SumBySnoc(Summaries(data, init), s[|s| - 1], KeyIndicator(k));
      assert k in ks <==> k in init || k == ks[|ks| - 1];
    }
  }

  /** Exactly one summary row per distinct `name@version` key of the input, and no other rows. */
  lemma SummaryOnePerPackage(data: seq<TrackingRow>)
    ensures |SummaryRows(data)| == |GroupKeys(data, PackageKey)|
    ensures forall k :: k in GroupKeys(data, PackageKey) ==> SumBy(SummaryRows(data), KeyIndicator(k)) == 1
    ensures forall i :: 0 <= i < |SummaryRows(data)| ==> RowKey(SummaryRows(data)[i]) in GroupKeys(data, PackageKey)
  {
    SortByPermutes(Summaries(data, GroupKeys(data, PackageKey)), SummaryLe);
    forall k | k in GroupKeys(data, PackageKey) ensures SumBy(SummaryRows(data), KeyIndicator(k)) == 1 {
      SummaryKeyCount(data, k);
    }
    forall i | 0 <= i < |SummaryRows(data)| ensures RowKey(SummaryRows(data)[i]) in GroupKeys(data, PackageKey) {
      SummaryRowKey(data, i);
    }
  }

  lemma SummaryKeyCount(data: seq<TrackingRow>, k: string)
    requires k in GroupKeys(data, PackageKey)
    ensures SumBy(SummaryRows(data), KeyIndicator(k)) == 1
  {
    var ks := GroupKeys(data, PackageKey);
    var unsorted := Summaries(data, ks);
    SortByPermutes(unsorted, SummaryLe);
    SummariesKeyCount(data, ks, k);
    SumByPermutation(SummaryRows(data), unsorted, KeyIndicator(k));
  }

  lemma SummaryRowKey(data: seq<TrackingRow>, i: nat)
    requires i < |SummaryRows(data)|
    ensures RowKey(SummaryRows(data)[i]) in GroupKeys(data, PackageKey)
  {
    var ks := GroupKeys(data, PackageKey);
    var unsorted := Summaries(data, ks);
    var j := SortByElement(unsorted, SummaryLe, i);
    assert RowKey(unsorted[j]) == ks[j];
  }

  /** The Vulnerability_Count values add up to the number of input rows. */
  lemma SummaryCountsSum(data: seq<TrackingRow>)
    ensures SumBy(SummaryRows(data), CountOf) == |data|
  {
    var ks := GroupKeys(data, PackageKey);
    var unsorted := Summaries(data, ks);
    SortByPermutes(unsorted, SummaryLe);
    SummariesCounts(data, ks);
    GroupSizesSum(data, PackageKey);
    SumByPermutation(SummaryRows(data), unsorted, CountOf);
  }

  /**
   * The output is sorted by (priority rank, severity rank, minus the score), is a
   * permutation of the per-group rows, and rows with equal keys keep their group order.
   */
  lemma SummaryOrdered(data: seq<TrackingRow>)
    ensures SortedBy(SummaryRows(data), SummaryLe)
    ensures multiset(SummaryRows(data)) == multiset(Summaries(data, GroupKeys(data, PackageKey)))
    ensures forall y :: (Ties(SummaryRows(data), y, SummaryLe)
      == Ties(Summaries(data, GroupKeys(data, PackageKey)), y, SummaryLe))
  {
    SummaryLeTotalPreorder();
    SortByCorrect(Summaries(data, GroupKeys(data, PackageKey)), SummaryLe);
  }

  /** The score part of the sort key reads back the group's true maximum ("Unknown" as 0). */
  lemma SummaryScoreKey(vs: seq<TrackingRow>)
    requires |vs| > 0
    ensures CvssKey(Summarize(vs).maxCvssScore) == -(MaxTenths(vs) as int)
  {
    assert Summarize(vs).maxCvssScore == MaxCvssText(MaxTenths(vs));
    MaxCvssKey(MaxTenths(vs));
  }

  /** The Max_CVSS_Score cell of a maximum of `m` tenths reads back as minus `m`. */
  lemma MaxCvssKey(m: nat)
    ensures CvssKey(MaxCvssText(m)) == -(m as int)
  {
    if m > 0 {
      FormatTenthsRoundTrip(m);
      assert FormatTenths(m) != "Unknown" by { assert FormatTenths(m)[|FormatTenths(m)| - 2] == '.'; }
    }
  }
}
