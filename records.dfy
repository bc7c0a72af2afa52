/**
 * The CSV rows passed between the stages. The remediation stage writes tracking rows,
 * the summary stage reads them and writes summary rows, and the comparison stages read
 * both back with `row.get(column, default)`, which is why they see a row as a map from
 * column name to cell text.
 */
module Records {
  import opened Text

  /** A row of the remediation tracking CSV: one vulnerable package in one image. */
  datatype TrackingRow = TrackingRow(
    image: string,
    vulnerabilityId: string,
    packageName: string,
    currentVersion: string,
    packageType: string,
    severity: string,
    cvssScore: string,
    fixedVersion: string,
    description: string,
    status: string,
    notes: string,
    assignedTo: string,
    targetDate: string,
    completedDate: string)

  /** A row of the per-package summary CSV. */
  datatype SummaryRow = SummaryRow(
    image: string,
    packageName: string,
    currentVersion: string,
    highestSeverity: string,
    maxCvssScore: string,
    vulnerabilityCount: nat,
    severityBreakdown: string,
    fixedVersion: string,
    priority: string,
    status: string,
    assignedTo: string,
    targetDate: string,
    completedDate: string,
    notes: string)

  /** A CSV row as `csv.DictReader` yields it. */
  type CsvRow = map<string, string>

  /** `row.get(column, default)`. */
  function Get(row: CsvRow, column: string, default: string): (v: string)
    ensures column in row ==> v == row[column]
    ensures column !in row ==> v == default
  {
    if column in row then row[column] else default
  }

  /** The cells of a tracking row under its CSV column names. */
  function TrackingCells(r: TrackingRow): CsvRow {
    map[
      "Image" := r.image, "Vulnerability_ID" := r.vulnerabilityId,
      "Package_Name" := r.packageName, "Current_Version" := r.currentVersion,
      "Package_Type" := r.packageType, "Severity" := r.severity,
      "CVSS_Score" := r.cvssScore, "Fixed_Version" := r.fixedVersion,
      "Description" := r.description, "Status" := r.status, "Notes" := r.notes,
      "Assigned_To" := r.assignedTo, "Target_Date" := r.targetDate,
      "Completed_Date" := r.completedDate]
  }

  /** The Fixed_Version cell for a set of fix hints: sorted and joined with ", ", or "Check Manually" when nothing was found. */
  ghost function FixedVersionText(found: set<string>): string {
    if found == {} then "Check Manually" else Join(SortedOf(found), ", ")
  }
}
