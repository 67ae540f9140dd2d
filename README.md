# MSS-Agent data validation, modelled in Dafny

MSS-Agent checks spreadsheets of business-unit figures. It works in these steps:

- The `DataValidator` loads one sheet of an Excel workbook.
- It decides which columns take part in validation. Columns whose name contains a quarter or half-year fragment are skipped.
- Rows whose frequency column says `quarterly` or `half-yearly` are skipped.
- Every other row gets a verdict: `valid`, `missing` (an empty cell in a validated column) or `invalid`. A row is `invalid` when a rank column exceeds the rank threshold, or when an "Outcome Number" cell is not a number.
- It reports the sheet's summary and missing-data statistics.

The `ValidationWorkflow` does two things:

- `run` validates one sheet and requests one e-mail: a missing-data notice or a completion notice.
- `run_all_sheets` validates every sheet of a workbook and merges the errors, each tagged with its sheet. It counts the errors per sheet and evaluates the deadline schedule of each configured product, then requests one aggregate notice. As written, the schedule table it evaluates is always empty, so that trigger never fires. The model evaluates the configured table; see "## Findings".

`Config` answers dotted-path queries (`validation.rules.rank_threshold`) on the parsed YAML configuration.

The model has these modules:

- `Wrappers` (`wrappers.dfy`): `Option` and `Result`.
- `Strings` (`strings.dfy`): the Python string operations the code relies on (`lower`, `in`, `strip`, `split`, `join`).
- `NumberSyntax` (`number_syntax.dfy`): the text grammar `float()` accepts, and `int()` on text.
- `Configuration` (`config.dfy`): parsed YAML values and the `Config` class.
- `ExcelParser` (`excel_parser.dfy`): tables, the checks `parse_excel_file` makes before reading, `validate_file_structure` and `get_data_summary`.
- `DataValidator` (`data_validator.dfy`): settings, the column partition, the per-cell and per-row rules, the summary, the missing-data report, `_check_product_frequency` and `validate_spreadsheet`.
- `Notifications` (`notifier.dfy`): the notifier as the workflow sees it. It is a log of requested notices, and every send returns the same result.
- `ValidationWorkflow` (`validation_workflow.dfy`): the deadline windows, the periodic trigger, the aggregation, and the `Workflow` class with `Run` and `RunAllSheets`.

Loops in the source stay loops:

- the dotted-path walk in `Config.Get`;
- the frequency-column search;
- the loop over the rows and over the columns of a row;
- the sheet loop;
- the schedule loop;
- the error-tagging loop.

Each loop is a method proved equal to a recursive or comprehension-based specification function. The properties are lemmas about those functions. The workflow and the notifier are classes. The notifier's `log` records every notice requested, so `Run` and `RunAllSheets` state exactly which notices go out and in what order.

## Model

| member | source | states |
|---|---|---|
| Strings.Lower | src/agents/data_validator.py:45 | `str.lower` keeps the length, leaves no upper-case ASCII letter, turns each upper-case letter into its lower-case partner and keeps every other character |
| Strings.LowerIdempotent | src/agents/data_validator.py:45 | lower-casing an already lower-cased name changes nothing |
| Strings.SkipSpace | src/agents/data_validator.py:85 | returns the first non-whitespace index at or after `i`; everything skipped is whitespace |
| Strings.SkipSpaceBack | src/agents/data_validator.py:85 | returns the end of the last non-whitespace character before `j`; everything dropped is whitespace |
| Strings.Strip | src/agents/data_validator.py:85 | `strip()` returns a contiguous slice of the text with only whitespace cut before and after it, and the slice neither starts nor ends with whitespace |
| Strings.StripTrimmed | src/agents/data_validator.py:85 | text that neither starts nor ends with whitespace strips to itself |
| Strings.StripEmptyIffBlank | src/agents/data_validator.py:85 | `value.strip() == ''` holds exactly when every character is whitespace, so a blank string cell counts as missing |
| Strings.Split | src/utils/config.py:29 | `split('.')` yields at least one piece, and no piece contains the separator |
| Strings.JoinSplit | src/utils/config.py:29 | joining the pieces of `split(sep)` with `sep` gives the key back |
| Strings.SplitWithoutSeparator | src/utils/config.py:29 | a key without dots splits into itself alone |
| NumberSyntax.FirstIndex | src/agents/data_validator.py:100 | returns the first position holding one of the characters, or none when there is no such position |
| NumberSyntax.IntOfText | src/workflows/validation_workflow.py:76 | `int(text)` succeeds exactly when the stripped text is an optional sign and a digit part; its value is that of the digits, negated after `-` |
| NumberSyntax.IntTextIsFloatText | src/workflows/validation_workflow.py:76 | every text `int()` accepts is also accepted by `float()` |
| NumberSyntax.DecimalText | src/workflows/validation_workflow.py:76 | `str(n)` of a natural number is a non-empty string of decimal digits |
| NumberSyntax.DecimalTextValue | src/workflows/validation_workflow.py:76 | the decimal text of `n` is a digit part whose value is `n` |
| NumberSyntax.IntOfDigitPart | src/workflows/validation_workflow.py:76 | a bare digit part reads as its value |
| NumberSyntax.IntOfMinusText | src/workflows/validation_workflow.py:76 | a minus sign followed by a digit part reads as the negated value |
| NumberSyntax.IntOfDecimalText | src/workflows/validation_workflow.py:76 | `int(str(m)) == m` for every integer `m`, negative ones included |
| NumberSyntax.DigitPartIsFloat | src/agents/data_validator.py:99-101 | every digit string, underscores between digits allowed, is accepted by `float()` |
| Configuration.Find | src/utils/config.py:33-34 | `k in d` fails exactly when no entry has key `k`; a hit is an entry of the mapping |
| Configuration.GetField | src/workflows/validation_workflow.py:72-73 | `d.get(k, default)` raises exactly when `d` is not a mapping, gives the stored value for a present key and the default for an absent one |
| Configuration.ReachAppend | src/utils/config.py:32-36 | walking `a + b` is walking `a`, then `b` from where `a` ended |
| Configuration.SplitAround | src/utils/config.py:29 | splitting `x.y` is splitting `x`, then `y` |
| Configuration.DottedKeyIsNestedLookup | src/utils/config.py:27-38 | `get("a.b")` is `get("b")` inside section `a`, and the default when `a` is absent |
| Configuration.NonMappingGivesDefault | src/utils/config.py:33-36 | a document that is not a mapping answers every key with the default |
| Configuration.StoredNullIsReturned | src/utils/config.py:33-38 | a key present with value None gives None, not the default |
| Configuration.PlainKeyLookup | src/utils/config.py:27-38 | a key without dots is one lookup in the top-level mapping, with the default when it is absent |
| Configuration.Config.constructor | src/utils/config.py:13-15 | the store holds the loaded document |
| Configuration.Config.Get | src/utils/config.py:27-38 | the segment loop returns the value at the dotted path, or the default at the first missing segment or non-mapping |
| Configuration.Config.Section | src/utils/config.py:40-63 | `get(name, {})` is the top-level section, or the empty mapping when it is absent or the document is not a mapping |
| Configuration.Config.EmailConfig | src/utils/config.py:40-43 | the `email` section or `{}` |
| Configuration.Config.BusinessUnitConfig | src/utils/config.py:45-48 | the `business_unit` section or `{}` |
| Configuration.Config.ValidationConfig | src/utils/config.py:50-53 | the `validation` section or `{}` |
| Configuration.Config.FileUploadConfig | src/utils/config.py:55-58 | the `file_upload` section or `{}` |
| Configuration.Config.NotificationConfig | src/utils/config.py:60-63 | the `notification` section or `{}` |
| ExcelParser.LastIndexOf | src/utils/excel_parser.py:37 | returns the position of the last occurrence of a character, or none when the character is absent |
| ExcelParser.DropTrailingSlashes | src/utils/excel_parser.py:32 | returns the path with all its trailing `/` removed and nothing else: a prefix, not ending in `/`, followed in the path only by slashes |
| ExcelParser.FileName | src/utils/excel_parser.py:32 | `Path.name` is the tail of the path after its last `/` once trailing slashes are dropped; it contains no `/` |
| ExcelParser.Suffix | src/utils/excel_parser.py:37-38 | `Path.suffix` is empty, or a proper tail of the file name made of a dot and at least one character, with no further dot or slash |
| ExcelParser.SuffixOfPlainName | src/utils/excel_parser.py:37 | the suffix of `stem.ext` is `.ext` |
| ExcelParser.LastIndexOfAt | src/utils/excel_parser.py:37 | a position holding the character with none of it after is the last occurrence |
| ExcelParser.FileNameAfterSlash | src/utils/excel_parser.py:32 | the file name of `dir/name` is `name`, whatever the directory |
| ExcelParser.PlainFileName | src/utils/excel_parser.py:32 | a name without slashes is its own file name |
| ExcelParser.SuffixOfSameName | src/utils/excel_parser.py:37 | two paths with the same file name have the same suffix |
| ExcelParser.SuffixInDirectory | src/utils/excel_parser.py:37 | the suffix of `dir/stem.ext` is `.ext`: only the last component counts |
| ExcelParser.ParseExcelFile | src/utils/excel_parser.py:17-54 | a missing file gives "File not found", an unsupported suffix gives "Unsupported file format" with the suffix, and the sheet is read exactly when both checks pass and the read succeeds |
| ExcelParser.MissingRequired | src/utils/excel_parser.py:84 | the missing list holds the required names absent from the columns, each as often as it is required, and nothing else |
| ExcelParser.MissingRequiredAppend | src/utils/excel_parser.py:84 | the missing names of `a + b` are those of `a` followed by those of `b`, so the list keeps the required order |
| ExcelParser.MissingRequiredOne | src/utils/excel_parser.py:84 | one required name is listed exactly when it is not a column |
| ExcelParser.ValidateFileStructure | src/utils/excel_parser.py:73-90 | the structure is valid exactly when nothing is missing, which is exactly when every required column is present; the missing list is the required order of absent names |
| ExcelParser.SumPointwise | src/utils/excel_parser.py:106-107 | the sum of pointwise sums is the sum of the sums |
| ExcelParser.SumOfIndicators | src/utils/excel_parser.py:106-107 | summing the per-cell null indicators of a row gives the row's null count |
| ExcelParser.ColumnTotalsMatchRowTotals | src/utils/excel_parser.py:106-107 | summing the per-column null counts equals summing the per-row null counts |
| ExcelParser.ZerosSum | src/utils/excel_parser.py:107 | a sequence of zeros sums to zero |
| ExcelParser.GetDataSummary | src/utils/excel_parser.py:92-109 | gives row and column counts and names, each column's null count, and a total that is both the column sum and the row sum |
| DataValidator.StringList | src/agents/data_validator.py:40-42 | a YAML list of strings gives the same strings in the same order; anything else gives none |
| DataValidator.ReadSettings | src/agents/data_validator.py:37-42 | the settings are read exactly when the section is a mapping and every setting present has the type the validator uses it as (`rules` a mapping with a numeric `rank_threshold`, the column settings lists of strings); then the rank threshold, skip columns and non-nullable columns are the configured values when present, and 5, the quarter/half-year list and none when absent |
| DataValidator.ValidationColumns | src/agents/data_validator.py:45 | a column is validated exactly when no skip fragment occurs in its lower-cased name |
| DataValidator.SkippedColumns | src/agents/data_validator.py:137 | a column is reported skipped exactly when some skip fragment occurs in it |
| DataValidator.ValidationColumnsAppend | src/agents/data_validator.py:45 | the validated columns of `a + b` are those of `a` followed by those of `b`: table order is kept |
| DataValidator.SkippedColumnsAppend | src/agents/data_validator.py:137 | the skipped columns of `a + b` are those of `a` followed by those of `b`: table order is kept |
| DataValidator.ColumnListsOne | src/agents/data_validator.py:45 | a single column lands in exactly one of the two lists, by the skip test |
| DataValidator.ColumnsPartitioned | src/agents/data_validator.py:45 | validated and skipped columns together are a permutation of the table's columns |
| DataValidator.FrequencyColumn | src/agents/data_validator.py:52-56 | returns the first column whose name contains "frequency", or none when there is none |
| DataValidator.FindFrequencyColumn | src/agents/data_validator.py:52-56 | the search loop with `break` finds exactly that first column |
| DataValidator.FirstFrequencyColumnIsUnique | src/agents/data_validator.py:52-56 | a column index is the search result exactly when it is the first frequency column |
| DataValidator.CheckCell | src/agents/data_validator.py:84-102 | a missing value (null or blank string) gives a missing column; percentage columns never flag; a rank finding means a number above the threshold; a not-a-number finding means an Outcome Number cell that `float()` rejects |
| DataValidator.MissingUpTo | src/agents/data_validator.py:86 | the first `n` columns contribute at most `n` missing entries |
| DataValidator.FindingsUpTo | src/agents/data_validator.py:95-102 | the first `n` columns contribute at most `n` findings |
| DataValidator.MissingUpToMembers | src/agents/data_validator.py:84-86 | a column is listed missing exactly when one of its checked cells is missing |
| DataValidator.FindingsUpToMembers | src/agents/data_validator.py:92-102 | a finding is listed exactly when some checked column produced it |
| DataValidator.CheckColumns | src/agents/data_validator.py:80-102 | the column loop yields exactly the missing columns and the findings of the row |
| DataValidator.ValidateRow | src/agents/data_validator.py:61-123 | one iteration of the row loop produces the row's result as specified |
| DataValidator.StatusPrecedence | src/agents/data_validator.py:68-112 | a frequency skip wins over everything; otherwise missing wins over invalid, and valid means no missing and no findings; the row index is 1-based |
| DataValidator.DetailsListFindings | src/agents/data_validator.py:107-112 | every finding appears among the details after the missing-columns entry |
| DataValidator.FindingsInDetails | src/agents/data_validator.py:104-118 | every finding of a row is one of its details, and a row has no details exactly when it is valid |
| DataValidator.ValidIffEveryCheckPasses | src/agents/data_validator.py:61-112 | a row is valid exactly when it is not skipped and every validated column passes its check |
| DataValidator.MissingUpToEmpty | src/agents/data_validator.py:105 | no missing column is listed exactly when no checked cell is missing |
| DataValidator.FindingsUpToEmpty | src/agents/data_validator.py:109 | no finding is listed exactly when no checked column flagged |
| DataValidator.RowLists | src/agents/data_validator.py:69-112 | a skipped row lists nothing; otherwise its lists are those of the column loop |
| DataValidator.MissingColumnExactly | src/agents/data_validator.py:84-86 | with distinct column names, a column is listed missing exactly when the row is validated and its cell is missing |
| DataValidator.FindingOfColumnExactly | src/agents/data_validator.py:92-102 | with distinct column names, a column's finding is listed exactly when the row is validated and that column produced it |
| DataValidator.RankThresholdRule | src/agents/data_validator.py:93-95 | a numeric rank cell is flagged exactly when it exceeds the threshold |
| DataValidator.OutcomeNumberRule | src/agents/data_validator.py:98-102 | outside percentage columns and numeric rank cells, a non-numeric Outcome Number cell is flagged exactly when `float(str(value))` rejects it |
| DataValidator.FindingText | src/agents/data_validator.py:95 | a finding's text starts with its column name, immediately followed by a colon |
| DataValidator.DetailText | src/agents/data_validator.py:76 | every detail text contains a colon |
| DataValidator.DetailsTextPassedIff | src/agents/data_validator.py:118 | "All validations passed" appears exactly for rows without details |
| DataValidator.CountValid | src/agents/data_validator.py:127 | at most every row is valid |
| DataValidator.CountNotValid | src/agents/data_validator.py:128 | at most every row is an error row |
| DataValidator.CountsAddUp | src/agents/data_validator.py:126-128 | valid rows plus error rows make all rows |
| DataValidator.AllValidIffFullCount | src/agents/data_validator.py:127 | every row counts as valid exactly when each row's status is valid |
| DataValidator.RateBounds | src/agents/data_validator.py:134 | the validation rate lies between 0 and 100, and is 100 exactly for a non-empty sheet of valid rows |
| DataValidator.NullRows | src/agents/data_validator.py:201-208 | lists exactly the rows where the column is null, in increasing row order, and as many of them as its null count |
| DataValidator.EmptyRows | src/agents/data_validator.py:193-196 | lists exactly the rows whose every cell is null, in increasing row order |
| DataValidator.EmptyRowsExist | src/agents/data_validator.py:193-196 | some row is reported empty exactly when some row has every cell null |
| DataValidator.MostlyNullRows | src/agents/data_validator.py:212-216 | lists exactly the rows with more than half of their cells null, in increasing row order |
| DataValidator.IndexOf | src/agents/data_validator.py:200-201 | gives the position of a column name present in the table |
| DataValidator.GapOf | src/agents/data_validator.py:201-209 | a column's gap lists exactly its null rows, and its count is their number |
| DataValidator.ColumnGaps | src/agents/data_validator.py:199-209 | every reported column is a listed non-nullable column present in the table, with a positive null count and its exact rows |
| DataValidator.ColumnGapsCover | src/agents/data_validator.py:199-209 | a column is reported exactly when it is listed, present and has a null |
| DataValidator.ColumnGapsDistinct | src/agents/data_validator.py:206 | no column is reported twice, even when listed twice |
| DataValidator.ColumnGapsExist | src/agents/data_validator.py:199-209 | some column gap is reported exactly when a listed non-nullable column present in the table has a null |
| DataValidator.CheckMissingData | src/agents/data_validator.py:175-220 | reports the empty rows, the mostly-null rows (present only when there are some), and as per-column gaps exactly the listed non-nullable columns present in the table with a null; the flag is set exactly when one of them is non-empty; the total equals `get_data_summary`'s null total |
| DataValidator.HasMissingDataIff | src/agents/data_validator.py:193-216 | missing data is reported exactly when some row is all null, or a listed non-nullable column present in the table has a null, or some row is more than half null |
| DataValidator.NoColumnsMeansEveryRowEmpty | src/agents/data_validator.py:193-196 | in a table without columns every row counts as empty |
| DataValidator.ProductSchedule | src/agents/data_validator.py:22 | the corrected schedule table is the document's `product_schedule` section, or `{}` |
| DataValidator.CheckProductFrequency | src/agents/data_validator.py:263-321 | keeps the product name; the frequency is the product's configured one, "monthly" for an unlisted product or a missing field, and "unknown" with validation on when the table or entry is not a mapping; validation is off exactly for bi-annual products outside June and December and annual products outside December |
| DataValidator.UnlistedProductIsMonthly | src/agents/data_validator.py:278-291 | an unlisted product is treated as monthly and always validated |
| DataValidator.RowsWithStatus | src/agents/data_validator.py:150-151 | keeps exactly the rows with the given status |
| DataValidator.RowsWithStatusAppend | src/agents/data_validator.py:150-151 | the filter keeps row order: the kept rows of `a + b` are those of `a`, then those of `b` |
| DataValidator.RowsWithStatusOne | src/agents/data_validator.py:150-151 | a single result is kept exactly when it has the status |
| DataValidator.EvaluateRows | src/agents/data_validator.py:61-123 | there is one result per row, and result `i` is the evaluation of row `i`, so the results are in table order |
| DataValidator.RowsInTableOrder | src/agents/data_validator.py:61-123 | result `i` carries the 1-based row index `i + 1` and the missing columns of row `i` (none when the row is skipped) |
| DataValidator.ValidateRows | src/agents/data_validator.py:61-123 | the row loop gives exactly the row-by-row results |
| DataValidator.ValidateSpreadsheet | src/agents/data_validator.py:24-173 | the method's result is the specified validation result, or the load failure |
| DataValidator.SheetValidIff | src/agents/data_validator.py:126-151 | a sheet is valid exactly when it has no errors, no warnings and no skipped rows, which is exactly when its valid rows are all its rows; valid plus error rows are all rows |
| DataValidator.ErrorsAreInvalidRows | src/agents/data_validator.py:150 | every row in `errors` has status `invalid` |
| DataValidator.NoneWithStatus | src/agents/data_validator.py:149-151 | the filtered list is empty exactly when no row has that status |
| DataValidator.FailedLoadResult | src/agents/data_validator.py:163-173 | a file that cannot be loaded gives an invalid result whose one error carries the loader's message |
| ValidationWorkflow.Truncate | src/workflows/validation_workflow.py:76 | `int(x)` of a float truncates toward zero |
| ValidationWorkflow.TruncateWhole | src/workflows/validation_workflow.py:76 | a whole number truncates to itself |
| ValidationWorkflow.IntOf | src/workflows/validation_workflow.py:76 | `int()` raises on None, lists and mappings, truncates numbers, reads booleans as 0 and 1, and reads text exactly as `IntOfText` does, accepting only text `float()` accepts too |
| ValidationWorkflow.MonthIn | src/workflows/validation_workflow.py:81 | `month in months` raises on a non-container, and on a list holds exactly when an element equals the month |
| ValidationWorkflow.ScheduleFields | src/workflows/validation_workflow.py:72-73 | the loop reads a schedule's frequency and deadline day as configured |
| ValidationWorkflow.ScheduleMonthsField | src/workflows/validation_workflow.py:80 | the loop reads the deadline months as configured |
| ValidationWorkflow.ScheduleMonthField | src/workflows/validation_workflow.py:85 | the loop reads the deadline month as configured |
| ValidationWorkflow.MonthInList | src/workflows/validation_workflow.py:81 | a month is in the configured list exactly when it is one of its months |
| ValidationWorkflow.MonthlyWindow | src/workflows/validation_workflow.py:75-77 | a monthly schedule is due from seven days before the deadline day |
| ValidationWorkflow.BiAnnualWindow | src/workflows/validation_workflow.py:78-82 | a bi-annual schedule is due in a deadline month from seven days before the deadline day |
| ValidationWorkflow.AnnualWindow | src/workflows/validation_workflow.py:83-87 | an annual schedule is due in the deadline month from twenty-eight days before the deadline day |
| ValidationWorkflow.OtherFrequencyNeverDue | src/workflows/validation_workflow.py:71-87 | any other frequency is never due |
| ValidationWorkflow.FindFirst | src/workflows/validation_workflow.py:72-73 | a lookup finds the first entry with the key |
| ValidationWorkflow.MissingDeadlineDayFails | src/workflows/validation_workflow.py:73-76 | a monthly schedule without a deadline day makes the loop raise |
| ValidationWorkflow.PeriodicDueIff | src/workflows/validation_workflow.py:67-87 | the loop succeeds exactly when every schedule can be evaluated; the trigger is then set exactly when some schedule is due |
| ValidationWorkflow.PeriodicOrderIndependent | src/workflows/validation_workflow.py:71-87 | the order of the schedules changes neither success nor the trigger |
| ValidationWorkflow.ErrorPersists | src/workflows/validation_workflow.py:71-87 | once a schedule raises, the whole loop raises that error |
| ValidationWorkflow.ScanSchedules | src/workflows/validation_workflow.py:67-87 | the schedule loop computes exactly the specified trigger or error |
| ValidationWorkflow.SheetNoticeFor | src/workflows/validation_workflow.py:192-202 | `run` asks for a missing-data notice exactly when the sheet is not valid, about that file and sheet |
| ValidationWorkflow.RunOutcome | src/workflows/validation_workflow.py:143-217 | `run` returns the validation and the send result, with status `completed_success` exactly for a valid sheet and never `failed` |
| ValidationWorkflow.SheetChecks | src/workflows/validation_workflow.py:54-55 | there is one validation per sheet |
| ValidationWorkflow.SheetChecksAt | src/workflows/validation_workflow.py:54-55 | the `i`th entry is the validation of the `i`th sheet |
| ValidationWorkflow.CountTagged | src/workflows/validation_workflow.py:99 | a sheet's count is at most the number of merged errors |
| ValidationWorkflow.AggregateNotice | src/workflows/validation_workflow.py:107-119 | the aggregate notice is missing data exactly when some sheet is invalid or the trigger is set |
| ValidationWorkflow.SheetRuns | src/workflows/validation_workflow.py:54-56 | `all_sheets_results` holds, per sheet in order, its name and its `run` result |
| ValidationWorkflow.SheetNotices | src/workflows/validation_workflow.py:54-55 | the per-sheet runs request one notice per sheet, in order |
| ValidationWorkflow.SheetsOutcome | src/workflows/validation_workflow.py:89-127 | the workflow fails exactly when the schedule loop raised, and then records the error and sends no aggregate; it succeeds cleanly exactly when the trigger is off and all sheets are valid |
| ValidationWorkflow.SheetRunsAppend | src/workflows/validation_workflow.py:56 | one more sheet appends its run result |
| ValidationWorkflow.SheetNoticesAppend | src/workflows/validation_workflow.py:55 | one more sheet appends its notice |
| ValidationWorkflow.MergedErrorsAppend | src/workflows/validation_workflow.py:59-64 | one more sheet appends its tagged errors |
| ValidationWorkflow.AllValidAppend | src/workflows/validation_workflow.py:59-60 | one more sheet keeps `all_valid` only when that sheet is valid |
| ValidationWorkflow.SheetStep | src/workflows/validation_workflow.py:54-64 | one iteration of the sheet loop advances all four accumulators |
| ValidationWorkflow.TagErrors | src/workflows/validation_workflow.py:62-64 | the tagging loop tags every error of the sheet, in order |
| ValidationWorkflow.MergeSheet | src/workflows/validation_workflow.py:58-64 | an invalid sheet clears `all_valid` and appends its tagged errors; a valid one changes nothing |
| ValidationWorkflow.NoticesPerWorkbook | src/workflows/validation_workflow.py:54-119 | one notice per sheet in order, then exactly one aggregate notice unless the schedule loop raised |
| ValidationWorkflow.WorkbookStatus | src/workflows/validation_workflow.py:43-127 | fails exactly when listing the sheets or the schedule loop raised; succeeds cleanly exactly when all sheets are valid and nothing is due |
| ValidationWorkflow.MergedFromInvalidSheets | src/workflows/validation_workflow.py:58-64 | every merged error comes, tagged with its sheet, from the errors of an invalid sheet |
| ValidationWorkflow.MissingRowsNotMerged | src/workflows/validation_workflow.py:58-64 | rows with status `missing` never reach the merged list |
| ValidationWorkflow.CountTaggedAppend | src/workflows/validation_workflow.py:99 | counting over two lists adds the counts |
| ValidationWorkflow.CountSheetErrors | src/workflows/validation_workflow.py:99 | a sheet's errors count only toward that sheet's name |
| ValidationWorkflow.CountTaggedOf | src/workflows/validation_workflow.py:63 | errors tagged with a name count for that name only |
| ValidationWorkflow.CountOfAbsentName | src/workflows/validation_workflow.py:99 | a name no sheet carries has count zero |
| ValidationWorkflow.ErrorCountsAddUp | src/workflows/validation_workflow.py:98-99 | with distinct sheet names, the `errors_by_sheet` counts add up to `total_errors` |
| ValidationWorkflow.OneProductTable | src/workflows/validation_workflow.py:71-87 | a one-product table triggers exactly when that product is due |
| ValidationWorkflow.ProductScheduleIgnored | src/agents/data_validator.py:22 | with a due product configured, the corrected table triggers and the table as written does not |
| ValidationWorkflow.MonthlyProductIgnored | src/workflows/validation_workflow.py:68 | a monthly product due on the 1st triggers every day with the corrected table, and never with the table as written |
| ValidationWorkflow.Workflow.constructor | src/agents/data_validator.py:17-22 | the workflow's settings are read from the configuration's `validation` section, its schedule from the configuration document, and its notifier starts with an empty log |
| ValidationWorkflow.Workflow.Run | src/workflows/validation_workflow.py:132-217 | `run` returns the specified outcome and appends exactly the notice its verdict calls for |
| ValidationWorkflow.Workflow.RunSheet | src/workflows/validation_workflow.py:54-64 | one pass of the sheet loop keeps every accumulator equal to its specification over the sheets seen |
| ValidationWorkflow.Workflow.RunSheets | src/workflows/validation_workflow.py:54-64 | the sheet loop produces the per-sheet results, `all_valid`, the merged errors and one notice per sheet |
| ValidationWorkflow.Workflow.NotifyAggregate | src/workflows/validation_workflow.py:89-121 | the aggregate block gives the specified summary and sends at most one notice |
| ValidationWorkflow.Workflow.RunAllSheets | src/workflows/validation_workflow.py:21-130 | `run_all_sheets` returns the specified result and requests exactly the specified notices, in order |
| Notifications.Notifier.constructor | src/workflows/validation_workflow.py:19 | a new notifier has an empty log |
| Notifications.Notifier.SendMissingData | src/workflows/validation_workflow.py:111 | records one missing-data notice and returns the transport's answer |
| Notifications.Notifier.SendCompletion | src/workflows/validation_workflow.py:117 | records one completion notice and returns the transport's answer |

## Left out

- Reading files is outside the model. The YAML configuration, the workbook and its sheets arrive already parsed; the workbook's `sheets` input stands for the sheet names that `pd.ExcelFile(file_path).sheet_names` yields (src/workflows/validation_workflow.py:47-48), a list or an error when the file cannot be opened.
- File existence is a boolean input, and the read outcome is a `Result` input.
- Date and time are not modelled. `datetime.now()` is the `Date` input (day and month). Timestamps, `start_time`, `end_time` and `workflow_id` are not modelled.
- Logging is not modelled.
- The e-mail notifier is reduced to a log of requested notices. Composing and templating are outside the model, and so is SMTP. Every send returns the same `accepts` value.
- Python exception texts are not reproduced word for word. The model keeps which operations raise and the messages the source formats itself.
- Lower-casing and digits are ASCII only. `str.lower` on other letters and Unicode digits in `float()` are not modelled.
- `str()` of a float is the parameter `show` of the row texts. Python's shortest-repr rendering is not modelled.
- Numbers are exact reals. Float rounding of `validation_rate` and the comparison with the rank threshold are not modelled. A numpy integer and a float count alike as numbers.
- Tables have a default 0-based row index and distinct column names, as the loader produces them. A custom index is not modelled.
- The data-type names of `get_data_summary` are not modelled.
- `_check_data_quality` is not modelled: nothing in the core calls it.
- The validator reads `required_columns` at `__init__`, but validation never uses it.
- DataValidator.ReadSettings: returns None exactly when `SettingsReadable` fails, that is when a configured value has a type the typed settings cannot hold. The source would carry the odd value on and fail later.
- YAML mappings have string keys only. A mapping with a non-string key, such as `{6: x}`, is not modelled; dot-path lookup only ever asks for string keys.
- ValidationWorkflow.Workflow.constructor: requires that the `validation` section yields typed settings (see the line above). A configuration whose validation values have other types is not modelled.
- ExcelParser.ParseExcelFile: paths are taken as given, without `Path`'s normalisation. The "File not found" message shows the raw text, where the source prints the normalised path (`./a.xlsx` becomes `a.xlsx`, repeated slashes collapse). `FileName` and `Suffix` do not drop `.` components: for `x.xlsx/.` the source's suffix is `.xlsx` and the model's is empty.
- ValidationWorkflow.Workflow.Run: the per-product notification block of `run` is not modelled. It only runs when the summary has a `dataframe` entry, and the summary never has one.
- ValidationWorkflow.ErrorsBySheet: it is a sequence aligned with the sheet names, not a dict. For duplicate sheet names the dict would keep one entry; workbooks do not repeat sheet names.
- Tagging errors in place is not modelled. `run_all_sheets` mutates the error dicts it merges, so the tag also shows up in each per-sheet result. The model tags copies.
- ValidationWorkflow.AggregateNotice: the aggregate `message` is kept as the choice between its two texts (`AggregateText`), and `MessageText` renders them.
- `_check_product_frequency` reads the month from the clock; here the month is a parameter.
- Database, UI, API and command-line entry points are not part of this model.

## Findings

| source | as written | input that shows it | evidently intended | confidence | as-written member | corrected member |
|---|---|---|---|---|---|---|
| src/agents/data_validator.py:22 | `getattr(config, 'product_schedule', {})` asks the configuration object for an attribute it never defines, so the schedule table is always `{}`. The periodic trigger of `run_all_sheets` (src/workflows/validation_workflow.py:68) then never fires. | a configuration with `product_schedule: {p: {frequency: monthly, deadline_day: 1}}`, on any date | read the `product_schedule` entry of the configuration document (`config.get('product_schedule', {})`) | not executed | DataValidator.ProductScheduleAsWritten, shown by ValidationWorkflow.ProductScheduleIgnored and ValidationWorkflow.MonthlyProductIgnored | DataValidator.ProductSchedule, used by ValidationWorkflow.Workflow.constructor |
