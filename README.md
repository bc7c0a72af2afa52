# az_vuln_cli, modelled in Dafny

The az_vuln_cli scripts take a Trivy CycloneDX SBOM of a container image, turn its findings
into a remediation tracking CSV, summarise that CSV per package, compare two scan rounds,
write Jira epics and stories, resolve "Check Manually" cells from newer registry builds,
extract operating-system information from SBOMs, and read the environments configuration.
This project models those stages as Dafny functions and methods over explicit data (SBOM
trees, CSV rows, YAML trees) and proves what each stage computes.

One module per script, plus shared ones:

- `Wrappers`: `Option`.
- `Text`: Python string semantics the scripts use (`split`, `join`, `strip`, `re.sub(r'\s+', ' ')`,
  `title`, `lower`, `replace`, decimal text, code-point order, sorted sets).
- `Collections`: stable sort, grouping by key in first-seen order, tallies.
- `Ratings`: the severity order and CVSS score text in tenths.
- `Records`: the rows of the tracking CSV.
- `Sbom`: the CycloneDX SBOM as parsed JSON.
- `Remediation` (`generate_remediation_csv.py`), `Summary` (`generate_summary.py`),
  `Comparison` (`generate_detailed_comparison.py`), `Resolver` (`update_fixed_versions.py`),
  `Population` (`compare_vulnerabilities.py`), `OsExtraction` (`extract_os_from_sboms.py`),
  `Jira` (`generate_jira_format.py`), `Config` (`config_parser.py`).

Reading and writing files, printing and `sys.exit` are outside the model. A file a script reads
is a parameter: a parsed value, or the reason it could not be read. What a script writes is
the method's result. CVSS scores carry one decimal and are held as whole tenths.

## Model

| member | source | states |
|---|---|---|
| Ratings.SeverityRank | generate_remediation_csv.py:154 | The severity rank is 0 exactly for Critical, 1 for High, 2 for Medium, 3 for Low, and 4 for anything else |
| Ratings.WithoutDots | generate_remediation_csv.py:155 | `replace('.', '')` leaves no dot |
| Ratings.IntegerPart | generate_remediation_csv.py:155 | The integer part of a score is a dot-free prefix of it |
| Ratings.PartsOfDecimal | generate_remediation_csv.py:155 | For `w.rest`, the integer part is `w` and the fraction part is `rest` |
| Ratings.FormatTenths | generate_summary.py:63 | `f"{x:.1f}"` ends in a dot and one digit |
| Ratings.FormatTenthsRoundTrip | generate_summary.py:63 | A formatted score passes the `isdigit` test and reads back as the same number of tenths |
| Ratings.ScoreKey | generate_remediation_csv.py:155 | The score part of the sort key is never positive, and it is 0 for text that does not look numeric |
| Records.Get | generate_detailed_comparison.py:26 | `row.get(column, default)` is the cell when the column is there and the default otherwise |
| Remediation.ImageName | generate_remediation_csv.py:13-18 | The image is `metadata.component.name`, or "Unknown Image" when any of those keys is missing |
| Remediation.FirstWithRef | generate_remediation_csv.py:20-23 | Finds the first component whose `bom-ref` is the reference, with none before it; none exactly when no component has it |
| Remediation.GetPackageInfo | generate_remediation_csv.py:20-30 | The loop returns the first matching component's fields with their defaults, or the all-"Unknown" record |
| Remediation.PurlFallback | generate_remediation_csv.py:118-130 | Type and purl never change, and the record changes only for an unknown name with a non-empty reference containing "pkg:" |
| Remediation.NameVersionParts | generate_remediation_csv.py:125-128 | `name@version?query` splits at '@' into two parts: the name, then a part whose text before '?' is the version |
| Remediation.PurlFallbackParses | generate_remediation_csv.py:119-128 | A purl reference `head/name@version?query` gives that name and version |
| Remediation.PurlFallbackExample | generate_remediation_csv.py:119-128 | "pkg:pypi/foo@1.0" gives the package foo, version 1.0 |
| Remediation.VersionMatchSound | generate_remediation_csv.py:54 | A match of `(\d+\.[\d\.]+)` at a position is version-shaped, occurs there, and is greedy (no digit or dot follows it) |
| Remediation.VersionMatchComplete | generate_remediation_csv.py:54 | Wherever version-shaped text occurs, the pattern matches at that position |
| Remediation.SearchVersion | generate_remediation_csv.py:54-56 | `re.search` gives the match at the leftmost position that has one, or none when no position matches |
| Remediation.VersionFixesMembers | generate_remediation_csv.py:38-46 | A version is collected exactly when some entry's lower-cased status contains "fixed" or "patched" |
| Remediation.AffectFixesMembers | generate_remediation_csv.py:37-46 | The fixes of all affects are the union of each affect's fixes |
| Remediation.AdvisoryFixesMembers | generate_remediation_csv.py:49-56 | A version is collected exactly when some advisory URL containing "fixed" yields it as its first match |
| Remediation.AdvisoryFixesShaped | generate_remediation_csv.py:54-56 | Every version taken from an advisory URL is version-shaped |
| Remediation.AdvisoryVersion | generate_remediation_csv.py:50-56 | An advisory yields a version only when its lower-cased URL contains "fixed", and never when it has no URL |
| Remediation.AddStatusFixes | generate_remediation_csv.py:38-46 | The status loop adds exactly the fixes of its version entries to the set |
| Remediation.AddAdvisoryFixes | generate_remediation_csv.py:49-56 | The advisory loop adds exactly the versions of its advisories to the set |
| Remediation.ExtractFixedVersion | generate_remediation_csv.py:32-62 | The Fixed_Version cell is the sorted fixes joined by ", ", or "Check Manually" when there are none |
| Remediation.FirstScored | generate_remediation_csv.py:99-104 | The first rating with a truthy score, with none before it |
| Remediation.LastSeverity | generate_remediation_csv.py:99-101 | The title-cased severity of the last rating with a severity among the ones the loop visits, or none when none of them has one |
| Remediation.SelectRating | generate_remediation_csv.py:95-104 | The rating loop stops at the first score. It leaves the last severity seen up to that point and that score, each "Unknown" when not found |
| Remediation.CleanDescription | generate_remediation_csv.py:107-111 | A cleaned description is at most 203 characters long |
| Remediation.CleanDescriptionShape | generate_remediation_csv.py:107-111 | No whitespace runs remain. A short description keeps every visible character in order and has no space at either end |
| Remediation.FirstOccurrences | generate_remediation_csv.py:83-93 | Deduplication keeps the same set of ids and only input findings |
| Remediation.FirstOccurrencesDistinct | generate_remediation_csv.py:83-93 | The kept findings have distinct ids, and each is the first finding of its id |
| Remediation.IdlessDuplicatesDropped | generate_remediation_csv.py:88-92 | Two findings without an id share "Unknown", so the second is skipped |
| Remediation.FindingRows | generate_remediation_csv.py:114-151 | A finding gives one row per affected package |
| Remediation.AffectRow | generate_remediation_csv.py:114-149 | The type is the component lookup's, and a name the lookup found is kept with its version. The description is at most 203 characters. Status is "Pending" and the four tracking columns are blank |
| Remediation.RowsOf | generate_remediation_csv.py:87-151 | The findings give as many rows as they have `affects[]` entries in total |
| Remediation.ProcessFinding | generate_remediation_csv.py:95-151 | The per-finding loop builds exactly the finding's rows |
| Remediation.FirstOccurrencesStep | generate_remediation_csv.py:87-93 | A finding whose id was seen adds nothing; any other finding is kept and its id recorded |
| Remediation.RowsOfSnoc | generate_remediation_csv.py:87-151 | One more finding appends its rows after the earlier ones |
| Remediation.RowLeTotalPreorder | generate_remediation_csv.py:154-155 | The sort key order (severity rank, then minus the score) is a total preorder |
| Remediation.GenerateRemediationRows | generate_remediation_csv.py:77-155 | The main loop, then the sort, gives exactly the remediation rows of the SBOM |
| Remediation.RemediationRowsOrdered | generate_remediation_csv.py:153-155 | The rows are sorted by the key and are a permutation of the unsorted rows. Rows with equal keys keep their order (a stable sort) |
| Remediation.FindingRowPending | generate_remediation_csv.py:134-149 | Every row says "Pending" and carries the image and the finding's id. Its severity and CVSS score are the selected rating's, its Fixed_Version is the finding's fixed-version cell, and its description is the cleaned description, at most 203 characters |
| Remediation.RowsPending | generate_remediation_csv.py:134-151 | The same holds of every row of the CSV, whose id is one of the findings' ids |
| Remediation.GenerateRemediationCsv | generate_remediation_csv.py:64-185 | If the SBOM is missing or is not JSON, the script stops. With no rows nothing is written; otherwise exactly the remediation rows are written |
| Remediation.SingleRatingExample | generate_remediation_csv.py:99-104 | A single rating `high`, 7.5 gives High and "7.5" |
| Remediation.NoHintsExample | generate_remediation_csv.py:58-62 | A finding with no version entries and no advisories is "Check Manually" |
| Remediation.SingleFindingRow | generate_remediation_csv.py:114-149 | The row of a purl-only affect, field by field |
| Remediation.SingleFindingExample | generate_remediation_csv.py:64-155 | An SBOM with one finding gives exactly one row, field by field |
| Summary.MostSevere | generate_summary.py:36-38 | `min(severities, key=rank)` is the first row of least severity rank: no row ranks lower and no earlier row ranks the same |
| Summary.MaxTenths | generate_summary.py:40-41 | No numeric-looking score is higher than the maximum, and a positive maximum is one of the scores |
| Summary.MaxCvssText | generate_summary.py:63 | The cell is "Unknown" exactly when the maximum is 0. Otherwise it passes the `isdigit` test and reads back as the maximum |
| Summary.FixedSetMembers | generate_summary.py:44-47 | A Fixed_Version is collected exactly when some row has it and it is neither "Check Manually" nor blank |
| Summary.BreakdownTotals | generate_summary.py:52-56 | The counts in the severity breakdown, over the sorted severities, add up to the size of the group |
| Summary.Breakdown | generate_summary.py:52-56 | The Severity_Breakdown cell is empty exactly when the group has no rows |
| Summary.GroupPriority | generate_summary.py:67 | The priority is High exactly when some row is Critical or High. It is Medium exactly when none is but some row is Medium, and Low otherwise |
| Summary.Priority | generate_summary.py:67 | The priority is High exactly for the severities ranked Critical or High, Medium exactly for Medium, and Low for everything ranked below |
| Summary.Summarize | generate_summary.py:31-73 | A group's row carries the group's package key and the number of its rows |
| Summary.CollectFixes | generate_summary.py:44-49 | The fixed-version loop gives the sorted fixes joined by ", ", or "Check Manually" |
| Summary.TallyBreakdown | generate_summary.py:52-56 | The tally loop gives the breakdown text: entries in sorted severity order with their counts |
| Summary.SummarizeGroup | generate_summary.py:31-73 | The loop body builds exactly the group's summary row |
| Summary.Summaries | generate_summary.py:31-73 | One summary row per package key in first-seen order, each carrying its key and its group's size |
| Summary.SummaryLeTotalPreorder | generate_summary.py:76-83 | The sort key order (priority, severity, minus the score) is a total preorder |
| Summary.SummariesStep | generate_summary.py:31-73 | Every key's group is non-empty, and the next key appends its row |
| Summary.GenerateSummary | generate_summary.py:21-83 | Grouping, then the per-package loop, then the sort, give exactly the summary rows |
| Summary.SummariesCounts | generate_summary.py:64 | The Vulnerability_Count cells add up to the rows of the listed groups |
| Summary.SummariesKeyCount | generate_summary.py:31-73 | Over distinct keys, a key has exactly one row if it is listed and none if not |
| Summary.SummaryOnePerPackage | generate_summary.py:21-73 | There is one summary row per package@version key of the input, every key has exactly one row, and no other key appears |
| Summary.SummaryKeyCount | generate_summary.py:21-73 | Each package key of the input has exactly one summary row |
| Summary.SummaryRowKey | generate_summary.py:21-73 | Every summary row's key comes from the input |
| Summary.SummaryCountsSum | generate_summary.py:64 | The Vulnerability_Count cells add up to the number of input rows |
| Summary.SummaryOrdered | generate_summary.py:79-83 | The output is sorted by the key and is a permutation of the per-package rows. Rows with equal keys keep their order |
| Summary.SummaryScoreKey | generate_summary.py:63-82 | A group's sort key reads its formatted maximum back as minus the maximum score |
| Comparison.PairAt | generate_detailed_comparison.py:39 | A match of `(\w+):\s*(\d+)` at the start consumes at least one character and stays within the text |
| Comparison.ApplyPairs | generate_detailed_comparison.py:40-42 | The loop over the matches keeps exactly the six severity keys |
| Comparison.ParseSeverityBreakdown | generate_detailed_comparison.py:28-44 | The parsed counts always have exactly the six severities as keys |
| Comparison.ApplyPairsValue | generate_detailed_comparison.py:40-42 | A severity's count is the number of its last match, or stays as it was when no match names it |
| Comparison.ParsedCounts | generate_detailed_comparison.py:28-44 | A blank, "N/A" or "Unknown" breakdown gives 0. Otherwise each severity's count is the digits of the last match naming it, and 0 without one |
| Comparison.ParseBreakdown | generate_detailed_comparison.py:28-44 | The parsing loop computes exactly the parsed counts |
| Comparison.PairAtEntry | generate_detailed_comparison.py:39 | The pattern matches a summary entry `sev: digits` followed by nothing or a comma, whole |
| Comparison.EntryPair | generate_detailed_comparison.py:39 | A breakdown entry gives exactly its severity and its count, then whatever the rest gives |
| Comparison.SkipSeparator | generate_detailed_comparison.py:39 | The ", " between entries matches nothing |
| Comparison.FindPairsOfBreakdown | generate_detailed_comparison.py:39 | `re.findall` over a Severity_Breakdown written by the summary gives its entries' pairs in order |
| Comparison.EntriesLength | generate_summary.py:56 | A breakdown has one entry per severity |
| Comparison.LastCountOfPairs | generate_summary.py:52-56 | Over distinct severities, a severity's last pair carries its count in the group, and a severity not listed has none |
| Comparison.BreakdownNotBlank | generate_detailed_comparison.py:32 | A breakdown with at least one entry is not taken for blank |
| Comparison.SortedSeverities | generate_summary.py:56 | The sorted severities of a group are words and distinct, and a severity not among them counts 0 |
| Comparison.BreakdownRoundTrip | generate_detailed_comparison.py:28-44 | Parsing the breakdown the summary wrote gives back its count of every known severity (severities that are words) |
| Comparison.PackageKeyParts | generate_detailed_comparison.py:24-26 | The `name|version` key splits back into name and version when neither holds a '|' |
| Comparison.LastRow | generate_detailed_comparison.py:92-98 | The row kept for a key has that key and is one of the rows |
| Comparison.LastRowWins | generate_detailed_comparison.py:92-98 | A later row with the same key replaces an earlier one, so the row kept is the last with that key |
| Comparison.TrackedImages | generate_detailed_comparison.py:74-84 | An image is listed for a key exactly when some tracking row with that key names it ("Unknown" when the cell is missing) |
| Comparison.TrackedVulns | generate_detailed_comparison.py:74-86 | An id is listed for a key exactly when it is not "Unknown" and some tracking row with that key carries it |
| Comparison.BuildTrackingMaps | generate_detailed_comparison.py:72-86 | The loop's maps give, for every key, exactly the listed images and ids |
| Comparison.RenderListed | generate_detailed_comparison.py:109-113 | The cell is the sorted set joined by "; ", or "Unknown" when empty |
| Comparison.EntriesStep | generate_detailed_comparison.py:106-198 | Each key a loop visits appends its entry, if it has one |
| Comparison.FixedRow | generate_detailed_comparison.py:116-133 | A FIXED entry carries the production row's key and count, sorts first, and has zero or "N/A" in every latest-side cell |
| Comparison.NewRow | generate_detailed_comparison.py:136-156 | A NEW entry carries the latest row's key and count, ranks third, and has zero or "N/A" in every production-side cell |
| Comparison.SharedRow | generate_detailed_comparison.py:159-198 | A shared entry keeps the production key and both counts. It is IMPROVED, WORSENED or UNCHANGED exactly as the latest count is lower, higher or equal. Its fixed-vulnerabilities cell is "Still present" when unchanged and the listed ids otherwise |
| Comparison.StatusRank | generate_detailed_comparison.py:204 | Status rank 0 to 4 is exactly FIXED, IMPROVED, NEW, WORSENED, UNCHANGED, and 5 for anything else |
| Comparison.ComparisonLeTotalPreorder | generate_detailed_comparison.py:205-209 | The sort key order (status rank, minus the production count, package) is a total preorder |
| Comparison.EntryFor | generate_detailed_comparison.py:106-198 | One loop iteration appends exactly the key's entry, and fails exactly where `int()` raises |
| Comparison.Collect | generate_detailed_comparison.py:106-198 | A loop over the keys builds exactly the entries, and succeeds exactly when every count it reads parses |
| Comparison.SharedCountsParseKeys | generate_detailed_comparison.py:159-163 | The shared loop succeeds on all production keys exactly when every shared key's two counts parse |
| Comparison.IndexPackages | generate_detailed_comparison.py:89-98 | The key order is first appearance, the table holds exactly those keys, and each maps to its last row |
| Comparison.BuildTables | generate_detailed_comparison.py:72-98 | The four lookup tables are exactly what the loops read |
| Comparison.CheckSortKeys | generate_detailed_comparison.py:207 | Succeeds exactly when `int()` accepts every production count in the combined list |
| Comparison.GenerateDetailedComparison | generate_detailed_comparison.py:46-251 | The stage gives exactly its specified outcome |
| Comparison.DetailedComparison | generate_detailed_comparison.py:46-209 | A report is produced only when both inputs have rows and every shared count parses, and it has one row per combined entry |
| Comparison.EntryKey | generate_detailed_comparison.py:106-198 | An entry carries the key it was made for |
| Comparison.EntryDescribes | generate_detailed_comparison.py:106-198 | An entry's key is a production or latest key, and the entry has that key's cells |
| Comparison.EntriesElement | generate_detailed_comparison.py:106-198 | Every element of a list is the entry of one of the keys its loop visits |
| Comparison.EntriesKeyCount | generate_detailed_comparison.py:106-198 | A loop's list holds the key's entry once if it has one, and never otherwise |
| Comparison.ResultKeyCount | generate_detailed_comparison.py:201 | The combined list holds exactly one row for every production or latest key and none for any other |
| Comparison.ResultRowDescribes | generate_detailed_comparison.py:201 | Every combined row belongs to a production or latest key and has that key's cells |
| Comparison.ReportOnePerKey | generate_detailed_comparison.py:201-209 | The sorted report holds exactly one row per production or latest key, and is non-empty when production is |
| Comparison.ReportRowDescribes | generate_detailed_comparison.py:106-209 | Every report row has its key's status and cells: FIXED, NEW, or the count comparison with "Still present" or the ids |
| Comparison.ReportRowOf | generate_detailed_comparison.py:106-209 | Every production or latest key has a report row with its cells |
| Comparison.SortedRowsOrder | generate_detailed_comparison.py:204-209 | A sorted list has non-decreasing status rank, and within one status non-increasing production count |
| Comparison.ReportOrder | generate_detailed_comparison.py:201-209 | The report is sorted and is a permutation of the combined list. Equal keys keep their order, and status then count order hold |
| Comparison.UnreadableProdCount | generate_detailed_comparison.py:207 | A production-only key whose count `int()` rejects makes the sort raise |
| Comparison.UnreadableSortKey | generate_detailed_comparison.py:207 | A combined row whose production count is unreadable comes from an unreadable input count |
| Comparison.CountFailure | generate_detailed_comparison.py:159-207 | The stage raises in `int()` exactly when some production count, or a shared key's latest count, is unreadable |
| Comparison.ComparisonOutcomes | generate_detailed_comparison.py:59-212 | No production rows, no latest rows, or an unreadable count end the stage in that order; otherwise the report is the sorted rows |
| Comparison.SingleRow | generate_detailed_comparison.py:92-94 | One row gives one key, and that row is kept |
| Comparison.FixedExample | generate_detailed_comparison.py:106-133 | A package only in production is FIXED with its count, "0" latest and "Eliminates 3 vulnerabilities" |
| Comparison.OneKeyReadable | generate_detailed_comparison.py:159-207 | With one production key, the stage reads its counts exactly when they parse |
| Comparison.OnlyKey | generate_detailed_comparison.py:92-98 | With the same single key on both sides, no other key exists |
| Comparison.OneKeyReport | generate_detailed_comparison.py:159-209 | One shared key gives a one-row report with that key's cells |
| Comparison.ReportRowKey | generate_detailed_comparison.py:201-209 | Every report row belongs to a production or latest key |
| Comparison.ImprovedExample | generate_detailed_comparison.py:159-198 | Counts 5 then 2 give IMPROVED with "Change: 5 → 2 vulnerabilities" |
| Resolver.IdsOf | update_fixed_versions.py:24-28 | An id is collected exactly when some finding carries it and it is not empty |
| Resolver.SbomIds | update_fixed_versions.py:15-33 | A parsed SBOM gives exactly its non-empty finding ids; a missing or unreadable file gives the empty set |
| Resolver.LoadSbomVulnerabilities | update_fixed_versions.py:15-33 | The loop collects exactly the SBOM's ids |
| Resolver.Normalize | update_fixed_versions.py:35-39 | `re.sub(r'[:\|@].*$', '')` keeps the longest prefix without ':', '\|' or '@': the result holds none of them and stops at the first |
| Resolver.NormalizeUnmarked | update_fixed_versions.py:35-39 | A name without those marks is unchanged |
| Resolver.NormalizeIdempotent | update_fixed_versions.py:35-39 | Normalising twice is normalising once |
| Resolver.SafeName | update_fixed_versions.py:44 | Replacing '/' and ':' by "__" leaves neither character |
| Resolver.SafeNameAppend | update_fixed_versions.py:44 | The replacement works piecewise over a concatenation |
| Resolver.SafeNamePlain | update_fixed_versions.py:44 | A name without '/' or ':' is unchanged |
| Resolver.LastDot | update_fixed_versions.py:65 | Finds the last '.' of a name, or says there is none |
| Resolver.StemOfJson | update_fixed_versions.py:65 | `Path(...).stem` of `base.json` is `base` |
| Resolver.Stem | update_fixed_versions.py:65 | The stem is a prefix of the name. A name without a dot is its own stem, and otherwise only the text from an inner last dot on is removed |
| Resolver.Matching | update_fixed_versions.py:54-57 | The matching files are listed names that start with the prefix |
| Resolver.FirstMatch | update_fixed_versions.py:59-64 | The chosen file is the first listed name with the prefix, and no earlier name has it |
| Resolver.NoMatch | update_fixed_versions.py:59-60 | There is no match exactly when no listed name starts with the prefix |
| Resolver.FindAcrImageVersion | update_fixed_versions.py:41-76 | The loop and the rebuild give exactly the registry reference of the first matching file, or none |
| Resolver.AcrImageVersion | update_fixed_versions.py:41-76 | No directory gives no reference. A reference found comes from a listed file with the image's prefix and contains '/' |
| Resolver.SafeNameJoin | update_fixed_versions.py:44 | Path parts joined by '/' map to the same parts joined by "__" |
| Resolver.SafeNameOfReference | update_fixed_versions.py:68-74 | `registry/path:tag` maps to its parts joined by "__" |
| Resolver.JoinOfReference | update_fixed_versions.py:68-74 | The joined file stem is registry, path and tag separated by "__" |
| Resolver.RebuildRoundTrip | update_fixed_versions.py:68-74 | For a stem without '/' or ':', rebuilding an image reference and taking its file name gives the stem back |
| Resolver.Rebuild | update_fixed_versions.py:67-76 | A reference is rebuilt exactly when the stem has at least three "__"-separated parts, and the registry part is followed by '/' |
| Resolver.AcrFileIsChosen | update_fixed_versions.py:129-134 | For plain `.json` names, the registry SBOM looked up is exactly the first matching file |
| Resolver.CompareImageVulnerabilities | update_fixed_versions.py:78-89 | Fixed ids are in current and not in latest, new ids the other way round. The two sets are disjoint, and no fixed id is in latest |
| Resolver.RebuiltHasSlash | update_fixed_versions.py:74 | A rebuilt reference contains '/' |
| Resolver.ResolvedRow | update_fixed_versions.py:142-148 | Only Fixed_Version ever changes. A row changes exactly when its image has a plan, its id is fixed and its cell says "Check Manually"; the new cell is the registry reference |
| Resolver.PlanHasSlash | update_fixed_versions.py:129-147 | The registry reference written into a row contains '/', so it is never "Check Manually" |
| Resolver.SkippedImage | update_fixed_versions.py:122-137 | A missing current SBOM, no registry match, or a missing registry SBOM leaves the rows as they are |
| Resolver.GroupByImage | update_fixed_versions.py:103-110 | The images come in first-appearance order, each with exactly the positions of its rows |
| Resolver.ResolveImage | update_fixed_versions.py:121-140 | The three lookups and the comparison give exactly the image's plan |
| Resolver.ImagePlan | update_fixed_versions.py:121-140 | There is a plan exactly when the current SBOM, the registry reference and its SBOM are all found. The plan's ids are in the current SBOM and not in the registry one |
| Resolver.Updated | update_fixed_versions.py:142-148 | Only Fixed_Version can change, and only from "Check Manually" to a reference containing '/' |
| Resolver.UpdatedIdempotent | update_fixed_versions.py:142-148 | Running the resolver again over its own output changes nothing |
| Resolver.StillPresentKept | update_fixed_versions.py:142-148 | A finding still in the registry build's SBOM keeps its cell |
| Resolver.UpdatedWithoutFixes | update_fixed_versions.py:142 | With no plan or nothing fixed, the rows stay as they are |
| Resolver.RewriteGroup | update_fixed_versions.py:144-148 | The inner loop rewrites exactly the image's rows that qualify. The count grows by one per rewritten row, and each is a new difference |
| Resolver.ResolveGroup | update_fixed_versions.py:118-148 | One image's iteration resolves all of its rows and leaves the others. The differences grow by the count |
| Resolver.UpdateFixedVersions | update_fixed_versions.py:91-164 | Every row ends resolved against its image's plan. The count is the number of rows that changed, and the CSV is written exactly when it is positive |
| Resolver.AllResolved | update_fixed_versions.py:118-148 | After every image has been processed, every row is resolved |
| Resolver.ImageGroup | update_fixed_versions.py:103-118 | An image's group holds exactly its rows' positions, in increasing order, and the image was not processed before |
| Population.CountLabel | compare_vulnerabilities.py:53-54 | A level's group size is at most the number of rows |
| Population.ValuesOf | compare_vulnerabilities.py:59-62 | `df['Priority'].unique()` holds exactly the Priority cells of the rows |
| Population.CountLabelPositive | compare_vulnerabilities.py:53-62 | A level has rows exactly when it is one of the Priority values |
| Population.LabelCountPositive | compare_vulnerabilities.py:53-62 | With the Priority column missing both are empty, and otherwise the same holds of the table |
| Population.CountLabelsBounded | compare_vulnerabilities.py:70-72 | Three distinct levels together count no more rows than the table has |
| Population.CollectPriorities | compare_vulnerabilities.py:58-62 | The loop gathers exactly the Priority values of both tables |
| Population.AddValues | compare_vulnerabilities.py:60-62 | `update` adds exactly a table's Priority values |
| Population.Labels | compare_vulnerabilities.py:65-68 | The plain labels High, Medium, Low are used exactly when one of them occurs; otherwise the "… Priority" labels |
| Population.PlainLabelsCounted | compare_vulnerabilities.py:65-72 | With plain labels, some plain level has rows on one side |
| Population.Indicator | compare_vulnerabilities.py:75-80 | "✅ n fewer" for a drop, "⚠️  n more" for a rise, "➡️  no change" otherwise |
| Population.IndicatorShowsChange | compare_vulnerabilities.py:75-80 | The indicator's sign mark and number give the change back |
| Population.IndicatorSign | compare_vulnerabilities.py:75-80 | The first character tells a drop, a rise or no change apart |
| Population.IndicatorInjective | compare_vulnerabilities.py:73-80 | Different changes give different indicators |
| Population.NamesOf | compare_vulnerabilities.py:92-93 | `set(df[column].tolist())` holds exactly the rows' cells in that column |
| Population.ImpactPartition | compare_vulnerabilities.py:91-99 | Fixed and new names are disjoint, and with the shared names they make up both name sets. A name is fixed exactly when some production row has it and no latest row does |
| Population.PackageImpact | compare_vulnerabilities.py:88-99 | The analysis runs exactly when both tables have their package column, and the fixed and new names come from the production and latest names |
| Population.Recommend | compare_vulnerabilities.py:118-130 | DEPLOY exactly when latest has fewer rows, by the difference; CAUTION exactly when it has more, by the difference; NEUTRAL when equal |
| Population.RecommendSwap | compare_vulnerabilities.py:118-130 | Swapping the sides turns DEPLOY into CAUTION by the same amount and keeps NEUTRAL |
| Population.CompareVulnerabilities | compare_vulnerabilities.py:21-130 | The stage computes exactly the specified comparison |
| Population.ComparisonExists | compare_vulnerabilities.py:30-45 | There is a comparison exactly when both files exist and both tables have rows |
| Population.ComparisonOf | compare_vulnerabilities.py:40-130 | A comparison carries both row counts, three severity lines and the impact analysis, and recommends DEPLOY exactly when latest has fewer rows |
| Population.ComparisonLines | compare_vulnerabilities.py:52-130 | Three lines, on the plain labels exactly when one occurs. Each side's counts fit in its table, and the recommendation is DEPLOY exactly when latest has fewer rows |
| OsExtraction.OsImageName | extract_os_from_sboms.py:23-25 | The image is the metadata component's name ("unknown" without one), and "unknown" when metadata or its component is missing |
| OsExtraction.Basename | extract_os_from_sboms.py:43 | `os.path.basename` is the part after the last '/': it has no '/', ends the path, and follows a '/' or is the whole path |
| OsExtraction.FirstOs | extract_os_from_sboms.py:29-30 | Finds the first component of type operating-system, with none before it; none exactly when no component has that type |
| OsExtraction.ExtractOsFromSbom | extract_os_from_sboms.py:16-57 | Returns exactly the file's record, and nothing for a file that cannot be read as JSON |
| OsExtraction.LaterOsIgnored | extract_os_from_sboms.py:29-44 | Components after the first OS component, OS ones included, do not change the record |
| OsExtraction.FirstOsIs | extract_os_from_sboms.py:29-30 | An OS component with none before it is the one chosen |
| OsExtraction.RecordFields | extract_os_from_sboms.py:36-53 | A record's eosl is "unknown", its file is the basename and its image the metadata name. Without an OS component, family and version are "unknown" |
| OsExtraction.RecordOf | extract_os_from_sboms.py:31-53 | The record has eosl "unknown", the file's basename and the image name. Without an OS component, family and version are "unknown"; with one, a named component gives its name |
| OsExtraction.OsInfoOf | extract_os_from_sboms.py:16-57 | A record exists exactly for a file that parses. Its version is the first OS component's, or "unknown" when there is none |
| OsExtraction.FindSbomFiles | extract_os_from_sboms.py:59-63 | The SBOM files are the listed paths, sorted in code-point order |
| OsExtraction.FindSbomFilesDeterministic | extract_os_from_sboms.py:59-63 | The same files listed in any order give the same sorted list |
| OsExtraction.SortedPathsEqual | extract_os_from_sboms.py:63 | Two sorted lists with the same elements are equal |
| OsExtraction.SortedHeads | extract_os_from_sboms.py:63 | Two sorted lists with the same elements start with the same path |
| OsExtraction.Results | extract_os_from_sboms.py:75-83 | There are no more records than files |
| OsExtraction.ResultsStep | extract_os_from_sboms.py:76-81 | Each file appends its record, if it has one |
| OsExtraction.ProcessSbomDirectory | extract_os_from_sboms.py:65-83 | The files' records in sorted path order, leaving out the files that fail |
| OsExtraction.ProcessPaths | extract_os_from_sboms.py:75-83 | The loop collects exactly the records of the paths |
| OsExtraction.ResultsCount | extract_os_from_sboms.py:75-83 | There is one record per file that reads as JSON |
| OsExtraction.FamilyDistribution | extract_os_from_sboms.py:164-167 | Holds exactly the families that occur, each with its number of results, and the counts add up to the number of results |
| OsExtraction.SumIsTotalSize | extract_os_from_sboms.py:164-171 | The summed counts are the sizes of the families' groups |
| Jira.SummaryLines | generate_jira_format.py:46-49 | There is at most one summary line per severity of the order |
| Jira.Present | generate_jira_format.py:46-47 | The severities summarised are exactly those of the order that have rows |
| Jira.SummaryListsPresent | generate_jira_format.py:46-49 | The summary is one "* *sev:* n vulnerabilities" line per present severity, in order, with its row count |
| Jira.SummaryCountsAll | generate_jira_format.py:44-49 | When every row's severity is one of the five, the summary counts add up to the total |
| Jira.PresentCountsAll | generate_jira_format.py:46-49 | Over distinct severities that cover every row, the present ones' counts add up to the total |
| Jira.PresentAreKeys | generate_jira_format.py:22-28 | When the severities cover every row, the present ones are exactly the groups' keys |
| Jira.SeverityOrderDistinct | generate_jira_format.py:44 | The five severities of the order are distinct |
| Jira.SameKeysSameTotal | generate_jira_format.py:46-49 | Two distinct key lists with the same keys count the same rows |
| Jira.PresentDistinct | generate_jira_format.py:46-49 | The present severities are distinct |
| Jira.DistinctSameLength | generate_jira_format.py:46-49 | Distinct lists with the same elements have the same length |
| Jira.PriorityStory | generate_jira_format.py:64-81 | A Critical or High story has 18 lines |
| Jira.PriorityStoryLine | generate_jira_format.py:64-81 | Line 0 opens with the story number, line 14 is the description, and lines 1, 6, 12, 15 and 17 are blank |
| Jira.PriorityStoriesStep | generate_jira_format.py:63-82 | The next row appends its story with the counter's current value |
| Jira.PriorityStoriesNumbered | generate_jira_format.py:57-82 | The stories of a section take 18 lines each, and the i-th starts "h4. Story n+i: Fix id in package" |
| Jira.PriorityStoriesLength | generate_jira_format.py:63-82 | 18 lines per story |
| Jira.PackagesOf | generate_jira_format.py:89-91 | The package set holds exactly the rows' package names |
| Jira.GroupedOnly | generate_jira_format.py:94-95 | The comprehension keeps exactly the rows that are Medium or Low |
| Jira.VulnLines | generate_jira_format.py:102-103 | One "- id (severity, CVSS: score)" line per row, in order |
| Jira.GroupedPackageHasRows | generate_jira_format.py:93-96 | Every Medium/Low package has at least one Medium or Low row, so `if vulns_for_package` never skips |
| Jira.PackageHasRows | generate_jira_format.py:89-96 | A package found under Medium or Low has Medium/Low rows |
| Jira.GroupedRowListed | generate_jira_format.py:88-103 | Every Medium or Low row's package gets a story, and the row is listed in it |
| Jira.GenerateJiraEpic | generate_jira_format.py:10-121 | A missing CSV gives nothing. Otherwise the file's lines are exactly the epic, and the number of stories is Critical rows + High rows + Medium/Low packages |
| Jira.BuildEpic | generate_jira_format.py:21-114 | The content is exactly the epic, and the counter ends one past the number of stories |
| Jira.PackageStoriesPart | generate_jira_format.py:88-114 | The Medium/Low part appends one story per sorted package, counting on from the priority stories |
| Jira.OpeningLines | generate_jira_format.py:21-55 | The header, the severity summary and the priority heading, in that order |
| Jira.HeaderLines | generate_jira_format.py:35-43 | Seven lines. The image line names the first row's image, or "Unknown" when there are no rows, and the total line's number reads back as the row count |
| Jira.PriorityStoriesPart | generate_jira_format.py:57-82 | The Critical section, then the High section, numbered on from 1; the counter ends past both |
| Jira.MediumLowPackages | generate_jira_format.py:88-91 | The package set is exactly the packages of the Medium and Low rows |
| Jira.EpicLinesParts | generate_jira_format.py:31-114 | The epic is its header, summary, priority sections and package stories, in that order |
| Jira.EpicLines | generate_jira_format.py:32-118 | The epic has at least 12 lines and opens with the header block |
| Jira.SectionFrom | generate_jira_format.py:58-82 | A section depends only on its starting number |
| Jira.PackageStoriesFrom | generate_jira_format.py:93-114 | The package stories depend only on their starting number |
| Jira.AppendPackageStories | generate_jira_format.py:93-114 | The loop appends one story per package and advances the counter by the number of packages |
| Jira.AppendSummary | generate_jira_format.py:46-49 | The summary loop appends exactly the summary lines |
| Jira.SummaryStep | generate_jira_format.py:46-49 | A severity with rows adds its line; one without adds nothing |
| Jira.PackageStoriesStep | generate_jira_format.py:93-114 | The next package appends its story with the counter's current value |
| Jira.PackageStory | generate_jira_format.py:97-113 | A package story has 13 lines plus one per row. It opens with its number and package, and row j's line sits at position 4 + j |
| Jira.AppendSection | generate_jira_format.py:58-82 | A severity with rows appends its heading and stories; the counter advances by its rows |
| Jira.AppendStories | generate_jira_format.py:63-82 | The story loop appends one story per row, numbered on from the counter |
| Jira.AddPackages | generate_jira_format.py:90-91 | The loop adds exactly the rows' packages to the set |
| Config.FindKey | config_parser.py:32 | The first entry with the key, or none exactly when no entry has it |
| Config.Keys | config_parser.py:103 | The keys of a mapping, one per entry, in order |
| Config.DictGet | config_parser.py:37 | `.get` fails exactly on a node that is not a mapping |
| Config.Index | config_parser.py:73 | `current[key]` succeeds exactly on a mapping that has the key |
| Config.Field | config_parser.py:41 | A missing or non-scalar field is a malformed configuration |
| Config.Environments | config_parser.py:32 | A configuration without an `environments` mapping is malformed |
| Config.ListEnvironments | config_parser.py:100-103 | The environment names, in order, exactly the keys of `environments` |
| Config.EnvConfig | config_parser.py:32-36 | An environment that is not listed gives "Environment not found", and a listed one never does |
| Config.AcrLine | config_parser.py:41 | A registry without its fields is malformed |
| Config.AcrLines | config_parser.py:40-41 | One line per registry, in order, each its own "name:subscription:registry_name" |
| Config.GetAcrInfo | config_parser.py:28-43 | The loop returns exactly the registry lines of the environment, or its error |
| Config.AcrLinesStep | config_parser.py:40-41 | The next registry appends its line, or the whole list fails |
| Config.AcrLinesFailFrom | config_parser.py:40-41 | Once a registry fails, the whole list fails |
| Config.NoAcrs | config_parser.py:37 | An environment without `acrs` gives no lines |
| Config.NoAksExactly | config_parser.py:46-59 | "No AKS configuration" exactly when the environment exists and its `aks` is missing or empty |
| Config.AksInfo | config_parser.py:46-61 | An environment lookup error passes through unchanged. The only errors are a malformed configuration, a missing environment and a missing AKS block, and a result is four fields joined by ':' |
| Config.EnvironmentsListed | config_parser.py:28-55 | An environment is found by the ACR and AKS queries exactly when it is listed |
| Config.NoEnvironments | config_parser.py:28-103 | Without an `environments` mapping every environment query fails |
| Config.ColonFields | config_parser.py:61 | Colon-free fields joined with ':' split back into the same fields |
| Config.SpecificValue | config_parser.py:64-77 | A path that cannot be followed gives "Path not found" with that path |
| Config.GetSpecificValue | config_parser.py:64-77 | The loop follows the dotted keys one at a time, exactly as the path does |
| Config.FollowAppend | config_parser.py:72-73 | Following `a + b` is following `a` and then `b` |
| Config.SpecificEnvironment | config_parser.py:64-77 | "environments.name" gives the environment's configuration exactly when the environment exists |
| Config.Iterated | config_parser.py:86 | Iterating anything other than a list, a mapping or a string is malformed |
| Config.Takes | config_parser.py:87-90 | Testing a source fails exactly when it is not a mapping |
| Config.GetInventoryBySourceType | config_parser.py:80-97 | The loop returns exactly the first taken source's inventory file, or its error |
| Config.FirstSourceTaken | config_parser.py:86-92 | A result comes from a source that is taken, and no earlier source is taken |
| Config.NoSourceTaken | config_parser.py:86-97 | When no source is taken the result is "Source type not found" with the filter |
| Config.FilterNarrows | config_parser.py:86-92 | A source found under an environment filter is found without one too |
| Config.EmptyFilter | config_parser.py:89 | An empty environment filter behaves like no filter |

## Left out

- Reading and writing files, `json.load`, `csv.DictReader`/`DictWriter`, printing, progress messages and `sys.exit`: the scripts' I/O. A file read is a parameter, and a file written is the method's result (its rows, or its lines joined by "\n").
- `main` and command-line parsing in every script: CLI plumbing. `load_config` is modelled as the parsed YAML tree it returns, and the YAML parsing itself is left out.
- The directory listing order of `glob`, which is unspecified: a listing is taken as a given sequence. The resolver matches a registry file by the prefix `safe(base) + "__"`, as the code does, so `repo/a` also matches files of `repo/a/b`.
- Ratings.Tenths: CVSS scores are held as whole tenths, not floats. A score with more than one decimal keeps only its first decimal, so two such scores can compare equal where `float` orders them. For a score with several dots, which passes `replace('.', '').isdigit()`, Python's `float()` raises `ValueError`; the model reads the digits before the first dot and the first digit after it.
- The percentage figures that `compare_vulnerabilities.py` prints: float formatting of console output. The recommendation keeps the exact reduction or increase in rows.
- Regular expressions in general: only the patterns the scripts use are written out as string functions. `\s` and `strip()` follow the full `str.isspace` set. `\d`, `\w`, `isdigit()`, `lower()` and `title()` are ASCII-only. So `"mÉdium".title()` gives "MÉDium" here where Python gives "Médium". A score such as "²" fails the model's `isdigit` test and gets sort key 0, where Python accepts it and then raises in `float()`.
- Resolver.Normalize: the model removes everything from the first ':', '|' or '@' on. In Python `.` stops at a newline and `$` also matches just before a final newline, so "a:b\n" becomes "a\n" and "a:b\nc" is left unchanged, while the model gives "a" for both. Image references never contain a newline.
- Python's `int()` accepts surrounding whitespace and `_` between digits: `Text.ParseInt` takes an optional sign and decimal digits only.
- pandas NaN cells: any cell `read_csv` reads as NaN (an empty cell, or one of its default NA strings such as "NA", "N/A", "null", "None" or "nan") is given as "". `unique()` is the set of cells, with "" included. `groupby` leaves NaN keys out, but the model only ever asks for the counts of High, Medium and Low (or their "Priority" forms).
- Population.NamesOf: `set(df[col].tolist())` is modelled as the set of cells, with a NaN cell given as "". pandas reads a Package column in which every cell is NaN as float64. `tolist()` then gives one float NaN per row, and no two of them are equal. So Python's set holds one NaN per such row, and the fixed and new counts written at compare_vulnerabilities.py:171-172 count those rows. The model's set is {""}, so each count is at most 1 from that column.
- Population.PackageImpact: a NaN name mixed with strings is not an error in the model. With production names {NaN, "openssl"} and latest names {"zlib"}, Python's fixed set is {NaN, "openssl"}. `sorted()` at compare_vulnerabilities.py:107 then raises `TypeError`, because a float and a str cannot be compared, and line 112 does the same for new names. The stage stops before the comparison file is written. The model returns a comparison with "" among the names.
- A CSV stage that indexes a row with `row['X']` (summary, Jira, resolver) raises `KeyError` on a missing column. The model types those rows as `TrackingRow`, which always has every column.
- The summary stage's check for a missing input file (it prints and returns): `Summary.GenerateSummary` takes the parsed rows.
- Exceptions of `read_csv` other than a missing file, in `compare_vulnerabilities.py`: a table is given as parsed.
- JSON `null` values and non-string JSON values where the scripts expect strings: an absent or `null` key is `None`. The same holds where `extract_os_from_sboms.py` expects a mapping or a list. For `"metadata": {"component": null}`, a `null` `components`, or a `components` item that is not an object, Python's `.get` or `for` raises, and the `except` at extract_os_from_sboms.py:55-57 gives that file no record. OsExtraction.OsInfoOf reads such a `null` as absent (no component, or no components) and gives a record with "unknown" fields, which OsExtraction.ResultsCount then counts. A `components` item that is not an object cannot be written as a `Sbom.Component` at all.
- The all-directories mode of `extract_os_from_sboms.py` and its CSV and stdout reports: I/O around `OsExtraction.ProcessSbomDirectory` and `OsExtraction.FamilyDistribution`.
- YAML floats, timestamps and non-string keys: they are not part of `environments.yaml`. `Config.Yaml` has strings, integers, booleans and null.
- Duplicate YAML keys: `Config.FindKey` takes the first entry, while PyYAML keeps the last value. A parsed mapping has distinct keys.
- Config.Field: Python would print a list or a mapping inside an ACR or AKS line as its repr. The model treats such a field as `Malformed`. `str(current)` in `get_specific_value` is left to the caller, because `Config.SpecificValue` returns the node itself.
- Config.Environments: an `environments` that is a list or a string would answer Python's `in` by membership. The model treats it as `Malformed`, as for any other value that is not a mapping.
