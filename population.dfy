/**
 * The name-level comparison of the production and latest summary tables
 * (`compare_vulnerabilities.py`): the rows per Priority level on each side with a
 * change indicator, the package names that disappear or appear, and the DEPLOY /
 * CAUTION / NEUTRAL recommendation drawn from the two row counts.
 *
 * A table is what `pandas.read_csv` gives: its column names and its rows, each row a map
 * from column name to cell text.
 */
module Population {
  import opened Wrappers
  import opened Text
  import opened Records
  import opened Collections

  datatype Table = Table(columns: set<string>, rows: seq<CsvRow>)

  /** `df.empty`: a table without rows. */
  predicate Empty(t: Table) {
    |t.rows| == 0
  }

  function PriorityOf(row: CsvRow): string { Get(row, "Priority", "") }

  // ---------------------------------------------------------------------------
  // Priority labels: groupby('Priority').size() and all_priorities
  // ---------------------------------------------------------------------------

  /** The number of rows whose Priority cell is `level`. */
  function CountLabel(rows: seq<CsvRow>, level: string): (n: nat)
    ensures n <= |rows|
    decreases |rows|
  {
    if rows == [] then 0
    else CountLabel(rows[..|rows| - 1], level) + (if PriorityOf(rows[|rows| - 1]) == level then 1 else 0)
  }

  /** `severity.get(level, 0)`: the group size of `level`, and 0 when the table has no Priority column. */
  function LabelCount(t: Table, level: string): nat {
    if "Priority" in t.columns then CountLabel(t.rows, level) else 0
  }

  /** The distinct Priority cells of some rows (`df['Priority'].unique()` as a set). */
  function ValuesOf(rows: seq<CsvRow>): (vs: set<string>)
    ensures forall p :: p in vs <==> exists i :: 0 <= i < |rows| && PriorityOf(rows[i]) == p
    decreases |rows|
  {
    if rows == [] then {}
    else
      var init := rows[..|rows| - 1];
      assert forall i :: 0 <= i < |init| ==> init[i] == rows[i];
      ValuesOf(init) + {PriorityOf(rows[|rows| - 1])}
  }

  /** The Priority values a table contributes to `all_priorities`: none without the column. */
  function PriorityValues(t: Table): set<string> {
    if "Priority" in t.columns then ValuesOf(t.rows) else {}
  }

  /** A level has rows exactly when it is one of the values seen. */
  lemma {:induction false} CountLabelPositive(rows: seq<CsvRow>, level: string)
    ensures CountLabel(rows, level) > 0 <==> level in ValuesOf(rows)
    decreases |rows|
  {
    if rows != [] {
      var init := rows[..|rows| - 1];
      CountLabelPositive(init, level);
      assert forall i :: 0 <= i < |init| ==> init[i] == rows[i];
    }
  }

  lemma LabelCountPositive(t: Table, level: string)
    ensures LabelCount(t, level) > 0 <==> level in PriorityValues(t)
  {
    CountLabelPositive(t.rows, level);
  }

  /** Three different labels never count more rows than there are. */
  lemma {:induction false} CountLabelsBounded(rows: seq<CsvRow>, a: string, b: string, c: string)
    requires a != b && b != c && a != c
    ensures CountLabel(rows, a) + CountLabel(rows, b) + CountLabel(rows, c) <= |rows|
    decreases |rows|
  {
    if rows != [] {
      CountLabelsBounded(rows[..|rows| - 1], a, b, c);
    }
  }

  /** The two `all_priorities.update` loops. */
  method CollectPriorities(prod: Table, latest: Table) returns (all: set<string>)
    ensures all == PriorityValues(prod) + PriorityValues(latest)
  {
    all := {};
    if "Priority" in prod.columns {
      all := AddValues(all, prod.rows);
    }
    if "Priority" in latest.columns {
      all := AddValues(all, latest.rows);
    }
  }

  /** `all.update(rows['Priority'].unique())`. */
  method AddValues(acc: set<string>, rows: seq<CsvRow>) returns (all: set<string>)
    ensures all == acc + ValuesOf(rows)
  {
    all := acc;
    for i := 0 to |rows|
      invariant all == acc + ValuesOf(rows[..i])
    {
      ValuesOfStep(rows, i);
      all := all + {PriorityOf(rows[i])};
    }
    PrefixAll(rows);
  }

  lemma ValuesOfStep(rows: seq<CsvRow>, i: nat)
    requires i < |rows|
    ensures ValuesOf(rows[..i + 1]) == ValuesOf(rows[..i]) + {PriorityOf(rows[i])}
  {
    PrefixOfPrefix(rows, i);
  }

  const PlainLabels: seq<string> := ["High", "Medium", "Low"]
  const SuffixedLabels: seq<string> := ["High Priority", "Medium Priority", "Low Priority"]

  /** The labels compared: the plain ones when any of them occurs, the "... Priority" ones otherwise. */
  function Labels(all: set<string>): (ls: seq<string>)
    ensures ls == PlainLabels <==> exists p :: p in PlainLabels && p in all
    ensures ls == PlainLabels || ls == SuffixedLabels
  {
    if "High" in all || "Medium" in all || "Low" in all then PlainLabels else SuffixedLabels
  }

  /** When the plain labels are chosen, at least one of them has rows on one side. */
  lemma PlainLabelsCounted(prod: Table, latest: Table)
    requires Labels(PriorityValues(prod) + PriorityValues(latest)) == PlainLabels
    ensures exists p :: p in PlainLabels && (LabelCount(prod, p) > 0 || LabelCount(latest, p) > 0)
  {
    var p :| p in PlainLabels && p in PriorityValues(prod) + PriorityValues(latest);
    LabelCountPositive(prod, p);
    LabelCountPositive(latest, p);
  }

  // ---------------------------------------------------------------------------
  // The change indicator
  // ---------------------------------------------------------------------------

  /** The indicator for `change = latest_count - prod_count`. */
  function Indicator(change: int): (s: string)
    ensures change < 0 ==> s == "\U{2705} " + NatToString(-change) + " fewer"
    ensures change > 0 ==> s == "\U{26A0}\U{FE0F}  " + NatToString(change) + " more"
    ensures change == 0 ==> s == "\U{27A1}\U{FE0F}  no change"
  {
    if change < 0 then "\U{2705} " + NatToString(-change) + " fewer"
    else if change > 0 then "\U{26A0}\U{FE0F}  " + NatToString(change) + " more"
    else "\U{27A1}\U{FE0F}  no change"
  }

  /** The number shown in a "fewer" or "more" indicator, read back. */
  lemma IndicatorShowsChange(change: int)
    requires change != 0
    ensures var s := Indicator(change);
      (change < 0 ==> s[0] == '\U{2705}' && ParseNat(s[2..|s| - 6]) == -change)
      && (change > 0 ==> s[0] == '\U{26A0}' && ParseNat(s[4..|s| - 5]) == change)
  {
    var s := Indicator(change);
    if change < 0 {
      assert s[2..|s| - 6] == NatToString(-change);
      ParseNatToString(-change);
    } else {
      assert s[4..|s| - 5] == NatToString(change);
      ParseNatToString(change);
    }
  }

  /** The first character of an indicator tells the sign of the change. */
  lemma IndicatorSign(change: int)
    ensures Indicator(change)[0] == if change < 0 then '\U{2705}' else if change > 0 then '\U{26A0}' else '\U{27A1}'
  {
  }

  /** Different changes show different indicators. */
  lemma IndicatorInjective(a: int, b: int)
    requires Indicator(a) == Indicator(b)
    ensures a == b
  {
    IndicatorSign(a);
    IndicatorSign(b);
    if a != 0 && b != 0 {
      IndicatorShowsChange(a);
      IndicatorShowsChange(b);
    }
  }

  /** One line of the severity comparison. */
  datatype SeverityLine = SeverityLine(level: string, prodCount: nat, latestCount: nat, indicator: string)

  function LineOf(prod: Table, latest: Table, level: string): SeverityLine {
    var p, l := LabelCount(prod, level), LabelCount(latest, level);
    SeverityLine(level, p, l, Indicator(l - p))
  }

  // ---------------------------------------------------------------------------
  // Package names
  // ---------------------------------------------------------------------------

  /** `Package_Name` when the table has it, else `Package`. */
  function PackageColumn(t: Table): string {
    if "Package_Name" in t.columns then "Package_Name" else "Package"
  }

  /** `set(df[column].tolist())`. */
  function NamesOf(rows: seq<CsvRow>, column: string): (names: set<string>)
    ensures forall x :: x in names <==> exists i :: 0 <= i < |rows| && Get(rows[i], column, "") == x
    decreases |rows|
  {
    if rows == [] then {}
    else
      var init := rows[..|rows| - 1];
      assert forall i :: 0 <= i < |init| ==> init[i] == rows[i];
      NamesOf(init, column) + {Get(rows[|rows| - 1], column, "")}
  }

  /** The packages fixed in latest (in production only) and the new ones (in latest only). */
  datatype Impact = Impact(fixedNames: set<string>, newNames: set<string>)

  /** The update impact analysis; `None` when either table lacks both package columns. */
  function PackageImpact(prod: Table, latest: Table): (im: Option<Impact>)
    ensures im.Some? <==> PackageColumn(prod) in prod.columns && PackageColumn(latest) in latest.columns
    ensures im.Some? ==> && im.value.fixedNames <= NamesOf(prod.rows, PackageColumn(prod))
                         && im.value.newNames <= NamesOf(latest.rows, PackageColumn(latest))
  {
    var pc, lc := PackageColumn(prod), PackageColumn(latest);
    if pc in prod.columns && lc in latest.columns then
      var p, l := NamesOf(prod.rows, pc), NamesOf(latest.rows, lc);
      Some(Impact(p - l, l - p))
    else None
  }

  /**
   * The fixed and new names are disjoint; together with the names on both sides they make
   * up exactly the union of the two name sets. A name is fixed exactly when no latest row
   * carries it, whatever its versions.
   */
  lemma ImpactPartition(prod: Table, latest: Table)
    requires PackageImpact(prod, latest).Some?
    ensures var im := PackageImpact(prod, latest).value;
      var p, l := NamesOf(prod.rows, PackageColumn(prod)), NamesOf(latest.rows, PackageColumn(latest));
      && im.fixedNames !! im.newNames
      && im.fixedNames + im.newNames + (p * l) == p + l
      && im.fixedNames !! l && im.newNames !! p
      && (forall x :: x in im.fixedNames <==>
            (exists i :: 0 <= i < |prod.rows| && Get(prod.rows[i], PackageColumn(prod), "") == x)
            && forall j :: 0 <= j < |latest.rows| ==> Get(latest.rows[j], PackageColumn(latest), "") != x)
  {
  }

  // ---------------------------------------------------------------------------
  // The recommendation
  // ---------------------------------------------------------------------------

  datatype Recommendation = Deploy(reduction: nat) | Caution(increase: nat) | Neutral

  /** DEPLOY when latest has fewer rows, CAUTION when it has more, NEUTRAL when the counts agree. */
  function Recommend(totalProd: nat, totalLatest: nat): (r: Recommendation)
    ensures r.Deploy? <==> totalLatest < totalProd
    ensures r.Caution? <==> totalLatest > totalProd
    ensures r.Neutral? <==> totalLatest == totalProd
    ensures r.Deploy? ==> totalLatest + r.reduction == totalProd
    ensures r.Caution? ==> totalProd + r.increase == totalLatest
  {
    if totalLatest < totalProd then Deploy(totalProd - totalLatest)
    else if totalLatest > totalProd then Caution(totalLatest - totalProd)
    else Neutral
  }

  /** Swapping the two sides turns DEPLOY into CAUTION by the same amount, and keeps NEUTRAL. */
  lemma RecommendSwap(a: nat, b: nat)
    ensures Recommend(a, b).Deploy? <==> Recommend(b, a).Caution?
    ensures Recommend(a, b).Deploy? ==> Recommend(a, b).reduction == Recommend(b, a).increase
    ensures Recommend(a, b).Neutral? <==> Recommend(b, a).Neutral?
  {
  }

  // ---------------------------------------------------------------------------
  // compare_vulnerabilities
  // ---------------------------------------------------------------------------

  datatype Comparison = Comparison(
    prodTotal: nat,
    latestTotal: nat,
    lines: seq<SeverityLine>,
    impact: Option<Impact>,
    recommendation: Recommendation)

  /**
   * The comparison the script reports and saves, or `None` when a summary file is
   * missing or either table is empty.
   */
  function ComparisonOf(prod: Option<Table>, latest: Option<Table>): (c: Option<Comparison>)
    ensures c.Some? ==> prod.Some? && latest.Some?
    ensures c.Some? ==> var p, l := prod.value, latest.value;
      && c.value.prodTotal == |p.rows| && c.value.latestTotal == |l.rows|
      && |c.value.lines| == 3
      && (c.value.recommendation.Deploy? <==> |l.rows| < |p.rows|)
      && c.value.impact == PackageImpact(p, l)
  {
    if prod.None? || latest.None? || Empty(prod.value) || Empty(latest.value) then None
    else
      var p, l := prod.value, latest.value;
      var labels := Labels(PriorityValues(p) + PriorityValues(l));
      Some(Comparison(
        |p.rows|, |l.rows|,
        [LineOf(p, l, labels[0]), LineOf(p, l, labels[1]), LineOf(p, l, labels[2])],
        PackageImpact(p, l),
        Recommend(|p.rows|, |l.rows|)))
  }

  /**
   * `compare_vulnerabilities` with the two summary files already read: `None` for a file
   * that does not exist.
   */
  method CompareVulnerabilities(prod: Option<Table>, latest: Option<Table>) returns (c: Option<Comparison>)
    ensures c == ComparisonOf(prod, latest)
  {
    if prod.None? || latest.None? {
      return None;
    }
    var p, l := prod.value, latest.value;
    if Empty(p) || Empty(l) {
      return None;
    }
    var all := CollectPriorities(p, l);
    var labels := Labels(all);
    var lines := [LineOf(p, l, labels[0]), LineOf(p, l, labels[1]), LineOf(p, l, labels[2])];
    c := Some(Comparison(|p.rows|, |l.rows|, lines, PackageImpact(p, l), Recommend(|p.rows|, |l.rows|)));
  }

  /** A comparison exists exactly when both files exist and both tables have rows. */
  lemma ComparisonExists(prod: Option<Table>, latest: Option<Table>)
    ensures ComparisonOf(prod, latest).Some? <==>
      prod.Some? && latest.Some? && |prod.value.rows| > 0 && |latest.value.rows| > 0
  {
  }

  /**
   * In a comparison every line counts its level's rows on both sides, no more than the
   * table holds, and its indicator shows the signed difference; the recommendation
   * follows the two row counts.
   */
  lemma ComparisonLines(prod: Table, latest: Table)
    requires !Empty(prod) && !Empty(latest)
    ensures var c := ComparisonOf(Some(prod), Some(latest)).value;
      && |c.lines| == 3
      && (forall i :: 0 <= i < 3 ==> c.lines[i] == LineOf(prod, latest, PlainLabels[i]))
           == (exists p :: p in PlainLabels && p in PriorityValues(prod) + PriorityValues(latest))
      && c.lines[0].prodCount + c.lines[1].prodCount + c.lines[2].prodCount <= |prod.rows|
      && c.lines[0].latestCount + c.lines[1].latestCount + c.lines[2].latestCount <= |latest.rows|
      && (c.recommendation.Deploy? <==> |latest.rows| < |prod.rows|)
  {
    var labels := Labels(PriorityValues(prod) + PriorityValues(latest));
    CountLabelsBounded(prod.rows, labels[0], labels[1], labels[2]);
    CountLabelsBounded(latest.rows, labels[0], labels[1], labels[2]);
    var c := ComparisonOf(Some(prod), Some(latest)).value;
    LinesArePlain(prod, latest, labels, c.lines);
  }

  /** The lines are those of the plain labels exactly when the plain labels were chosen. */
  lemma LinesArePlain(prod: Table, latest: Table, labels: seq<string>, lines: seq<SeverityLine>)
    requires labels == PlainLabels || labels == SuffixedLabels
    requires lines == [LineOf(prod, latest, labels[0]), LineOf(prod, latest, labels[1]), LineOf(prod, latest, labels[2])]
    ensures (forall i :: 0 <= i < 3 ==> lines[i] == LineOf(prod, latest, PlainLabels[i])) <==> labels == PlainLabels
  {
    if labels == SuffixedLabels {
      assert |labels[0]| != |PlainLabels[0]|;
      assert lines[0].level != LineOf(prod, latest, PlainLabels[0]).level;
    }
  }
}
