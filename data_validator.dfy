/**
 * The validation engine of `DataValidator`: which columns are validated, the
 * frequency-based row skip, the verdict for each row, the sheet summary, the
 * missing-data report and the calendar rule for scheduled products.
 */
module DataValidator {
  import opened Wrappers
  import opened Strings
  import opened NumberSyntax
  import opened Configuration
  import opened ExcelParser

  // ---------------------------------------------------------------------------
  // Settings read from the `validation` section of the configuration

  datatype Settings = Settings(skipColumns: seq<string>, rankThreshold: real, nonNullableColumns: seq<string>)

  const DefaultSkipColumns: seq<string> :=
    ["q1", "q2", "q3", "q4", "h1", "h2", "quarterly", "half_yearly", "half-yearly"]
  const DefaultRankThreshold: real := 5.0

  /** Row values of the frequency column that suppress validation of the row. */
  const FrequencySkipValues: seq<string> := ["quarterly", "half-yearly", "half_yearly"]

  /** A YAML list of strings, as a sequence; None for anything else. */
  function StringList(v: Value): (r: Option<seq<string>>)
    ensures r.Some? <==> v.VList? && forall i :: 0 <= i < |v.items| ==> v.items[i].VStr?
    ensures r.Some? ==> |r.value| == |v.items| && forall i :: 0 <= i < |v.items| ==> r.value[i] == v.items[i].s
  {
    if !v.VList? then None
    else if forall i :: 0 <= i < |v.items| ==> v.items[i].VStr? then
      Some(seq(|v.items|, i requires 0 <= i < |v.items| && v.items[i].VStr? => v.items[i].s))
    else None
  }

  /**
   * Every setting the validator reads has a type the typed settings hold: the section is a
   * mapping, `rules` (when present) is a mapping whose `rank_threshold` (when present) is a
   * number, and `skip_columns` and `non_nullable_columns` (when present) are lists of strings.
   */
  predicate SettingsReadable(validation: Value)
  {
    && validation.VMap?
    && (match Find(validation.entries, "rules")
        case None => true
        case Some(rules) =>
          rules.VMap? && (match Find(rules.entries, "rank_threshold") case None => true case Some(x) => x.VNum?))
    && (match Find(validation.entries, "skip_columns") case None => true case Some(x) => StringList(x).Some?)
    && (match Find(validation.entries, "non_nullable_columns") case None => true case Some(x) => StringList(x).Some?)
  }

  /**
   * The settings the validator reads: `rules.rank_threshold` (default 5), `skip_columns`
   * (default the quarter/half-year fragments) and `non_nullable_columns` (default none).
   * None when a value has a type the typed settings do not hold.
   */
  function ReadSettings(validation: Value): (r: Option<Settings>)
    ensures r.Some? <==> SettingsReadable(validation)
    ensures r.Some? ==> validation.VMap?
    ensures r.Some? && Find(validation.entries, "rules").None? ==> r.value.rankThreshold == DefaultRankThreshold
    ensures r.Some? && Find(validation.entries, "skip_columns").None? ==> r.value.skipColumns == DefaultSkipColumns
    ensures validation == EmptyMap ==> r == Some(Settings(DefaultSkipColumns, DefaultRankThreshold, []))
    ensures r.Some? ==> forall rules, n ::
      (Find(validation.entries, "rules") == Some(rules) && rules.VMap? && Find(rules.entries, "rank_threshold") == Some(VNum(n)))
      ==> r.value.rankThreshold == n
    ensures r.Some? ==> forall x :: Find(validation.entries, "skip_columns") == Some(x) ==> StringList(x) == Some(r.value.skipColumns)
    ensures r.Some? ==> forall x :: Find(validation.entries, "non_nullable_columns") == Some(x) ==>
      StringList(x) == Some(r.value.nonNullableColumns)
    ensures r.Some? && Find(validation.entries, "non_nullable_columns").None? ==> r.value.nonNullableColumns == []
  {
    if !validation.VMap? then None
    else
      var rules := match Find(validation.entries, "rules") case None => EmptyMap case Some(x) => x;
      var threshold :=
        if !rules.VMap? then None
        else match Find(rules.entries, "rank_threshold")
          case None => Some(DefaultRankThreshold)
          case Some(x) => if x.VNum? then Some(x.n) else None;
      var skips :=
        match Find(validation.entries, "skip_columns")
        case None => Some(DefaultSkipColumns)
        case Some(x) => StringList(x);
      var nonNullable :=
        match Find(validation.entries, "non_nullable_columns")
        case None => Some([])
        case Some(x) => StringList(x);
      if threshold.Some? && skips.Some? && nonNullable.Some? then
        Some(Settings(skips.value, threshold.value, nonNullable.value))
      else None
  }

  // ---------------------------------------------------------------------------
  // Columns

  /** Some skip fragment occurs in the column name, ignoring case. */
  predicate IsSkippedColumn(col: string, skips: seq<string>)
  {
    exists k :: 0 <= k < |skips| && Contains(Lower(col), Lower(skips[k]))
  }

  /** The columns that are validated, in table order. */
  function ValidationColumns(cols: seq<string>, skips: seq<string>): (r: seq<string>)
    ensures forall c :: c in r <==> c in cols && !IsSkippedColumn(c, skips)
  {
    if cols == [] then []
    else (if IsSkippedColumn(cols[0], skips) then [] else [cols[0]]) + ValidationColumns(cols[1..], skips)
  }

  /** `skipped_columns`: the remaining columns, in table order. */
  function SkippedColumns(cols: seq<string>, skips: seq<string>): (r: seq<string>)
    ensures forall c :: c in r <==> c in cols && IsSkippedColumn(c, skips)
  {
    if cols == [] then []
    else (if IsSkippedColumn(cols[0], skips) then [cols[0]] else []) + SkippedColumns(cols[1..], skips)
  }

  /** The validated columns keep table order: those of `a + b` are those of `a`, then those of `b`. */
  lemma {:induction false} ValidationColumnsAppend(a: seq<string>, b: seq<string>, skips: seq<string>)
    ensures ValidationColumns(a + b, skips) == ValidationColumns(a, skips) + ValidationColumns(b, skips)
  {
    if a == [] {
      assert a + b == b;
    } else {
      TailOfAppend(a, b);
      ValidationColumnsAppend(a[1..], b, skips);
    }
  }

  /** The skipped columns keep table order: those of `a + b` are those of `a`, then those of `b`. */
  lemma {:induction false} SkippedColumnsAppend(a: seq<string>, b: seq<string>, skips: seq<string>)
    ensures SkippedColumns(a + b, skips) == SkippedColumns(a, skips) + SkippedColumns(b, skips)
  {
    if a == [] {
      assert a + b == b;
    } else {
      TailOfAppend(a, b);
      SkippedColumnsAppend(a[1..], b, skips);
    }
  }

  /** A single column lands in exactly one of the two lists. */
  lemma ColumnListsOne(c: string, skips: seq<string>)
    ensures ValidationColumns([c], skips) == if IsSkippedColumn(c, skips) then [] else [c]
    ensures SkippedColumns([c], skips) == if IsSkippedColumn(c, skips) then [c] else []
  {
    assert [c][1..] == [];
  }

  /** Validated and skipped columns split the columns between them. */
  lemma {:induction false} ColumnsPartitioned(cols: seq<string>, skips: seq<string>)
    ensures multiset(ValidationColumns(cols, skips)) + multiset(SkippedColumns(cols, skips)) == multiset(cols)
    ensures |ValidationColumns(cols, skips)| + |SkippedColumns(cols, skips)| == |cols|
  {
    if cols != [] {
      ColumnsPartitioned(cols[1..], skips);
      assert cols == [cols[0]] + cols[1..];
    }
  }

  predicate IsPercentageColumn(col: string)
  {
    Contains(col, "%") || Contains(Lower(col), "percent")
  }

  predicate IsRankColumn(col: string)
  {
    Contains(Lower(col), "rank")
  }

  predicate IsOutcomeNumberColumn(col: string)
  {
    Contains(Lower(col), "outcome number")
  }

  predicate IsFrequencyColumn(col: string)
  {
    Contains(Lower(col), "frequency")
  }

  /** Position of the first column, among all columns, whose name mentions "frequency". */
  function FrequencyColumn(cols: seq<string>): (r: Option<nat>)
    ensures r.None? ==> forall j :: 0 <= j < |cols| ==> !IsFrequencyColumn(cols[j])
    ensures r.Some? ==> r.value < |cols| && IsFrequencyColumn(cols[r.value])
    ensures r.Some? ==> forall j :: 0 <= j < r.value ==> !IsFrequencyColumn(cols[j])
  {
    if cols == [] then None
    else if IsFrequencyColumn(cols[0]) then Some(0)
    else match FrequencyColumn(cols[1..])
      case None => None
      case Some(k) => Some(k + 1)
  }

  /** The search loop for the frequency column, stopping at the first match. */
  method FindFrequencyColumn(cols: seq<string>) returns (r: Option<nat>)
    ensures r == FrequencyColumn(cols)
  {
    var j := 0;
    while j < |cols|
      invariant 0 <= j <= |cols|
      invariant forall k :: 0 <= k < j ==> !IsFrequencyColumn(cols[k])
    {
      if IsFrequencyColumn(cols[j]) {
        FirstFrequencyColumnIsUnique(cols, j);
        return Some(j);
      }
      j := j + 1;
    }
    r := None;
    FirstFrequencyColumnIsUnique(cols, |cols|);
  }

  /** The first matching position is the one `FrequencyColumn` gives. */
  lemma {:induction false} FirstFrequencyColumnIsUnique(cols: seq<string>, j: nat)
    requires j <= |cols|
    requires forall k :: 0 <= k < j ==> !IsFrequencyColumn(cols[k])
    requires j < |cols| ==> IsFrequencyColumn(cols[j])
    ensures FrequencyColumn(cols) == if j < |cols| then Some(j) else None
  {
    if cols != [] && j > 0 {
      FirstFrequencyColumnIsUnique(cols[1..], j - 1);
    }
  }

  // ---------------------------------------------------------------------------
  // One cell

  /** `pd.isnull(value)`, or a string that strips to nothing. */
  predicate IsMissingValue(c: Cell)
  {
    c.Null? || (c.Text? && Strip(c.s) == "")
  }

  /** `isinstance(value, (int, float))`: numbers and booleans. */
  predicate IsNumeric(c: Cell)
  {
    c.Num? || c.Bool?
  }

  function NumericValue(c: Cell): real
    requires IsNumeric(c)
  {
    if c.Num? then c.n else if c.b then 1.0 else 0.0
  }

  /** `str(value)` for a present value that is not a number. */
  function PyStr(c: Cell): string
    requires !c.Null? && !c.Num?
  {
    match c
    case Bool(b) => if b then "True" else "False"
    case Text(s) => s
    case Other(r) => r
  }

  datatype Finding =
    | RankExceeds(column: string, value: Cell, threshold: real)
    | NotANumber(column: string, text: string)

  /** What one validated cell contributes: a missing column, nothing, or a finding. */
  datatype CellCheck = Absent | Passed | Flagged(finding: Finding)

  /** The `if/elif` chain applied to one validated column of one row. */
  function CheckCell(col: string, c: Cell, threshold: real): (r: CellCheck)
    ensures r.Absent? <==> IsMissingValue(c)
    ensures r.Flagged? ==> r.finding.column == col && !IsPercentageColumn(col)
    ensures r.Flagged? && r.finding.RankExceeds? ==>
      IsRankColumn(col) && IsNumeric(c) && NumericValue(c) > threshold && r.finding.value == c
    ensures r.Flagged? && r.finding.NotANumber? ==>
      IsOutcomeNumberColumn(col) && !c.Null? && !c.Num? && r.finding.text == PyStr(c) && !IsFloatText(PyStr(c))
  {
    if IsMissingValue(c) then Absent
    else if IsPercentageColumn(col) then Passed
    else if IsRankColumn(col) && IsNumeric(c) then
      if NumericValue(c) > threshold then Flagged(RankExceeds(col, c, threshold)) else Passed
    else if IsOutcomeNumberColumn(col) && !c.Null? then
      if c.Num? || IsFloatText(PyStr(c)) then Passed else Flagged(NotANumber(col, PyStr(c)))
    else Passed
  }

  // ---------------------------------------------------------------------------
  // One row

  datatype Status = Valid | Missing | Invalid | Skipped

  /** One entry of a row's `details`. */
  datatype Detail = SkippedDueTo(value: Cell) | MissingIn(columns: seq<string>) | Found(finding: Finding)

  datatype RowResult = RowResult(
    rowIndex: nat,
    status: Status,
    details: seq<Detail>,
    missingColumns: seq<string>,
    invalidValues: seq<Finding>,
    columnsChecked: nat,
    frequencyInfo: Option<Cell>)

  /** The value, lower-cased, is one of the frequency-skip values (numbers and booleans never are). */
  predicate IsFrequencySkip(c: Cell)
  {
    match c
    case Text(s) => Lower(s) in FrequencySkipValues
    case Other(r) => Lower(r) in FrequencySkipValues
    case _ => false
  }

  /** What the chain of checks says about column `j` of the row, when that column is validated. */
  function CheckAt(cols: seq<string>, row: seq<Cell>, s: Settings, j: nat): CellCheck
    requires |row| == |cols| && j < |cols|
  {
    if IsSkippedColumn(cols[j], s.skipColumns) then Passed else CheckCell(cols[j], row[j], s.rankThreshold)
  }

  /** Column `j` is validated and its value in the row is missing. */
  predicate MissingAt(cols: seq<string>, row: seq<Cell>, s: Settings, j: nat)
    requires |row| == |cols| && j < |cols|
  {
    CheckAt(cols, row, s, j).Absent?
  }

  /** The outcome of the chain of checks for every column of the row, in column order. */
  function RowChecks(cols: seq<string>, row: seq<Cell>, s: Settings): (r: seq<CellCheck>)
    requires |row| == |cols|
    ensures |r| == |cols| && forall j :: 0 <= j < |cols| ==> r[j] == CheckAt(cols, row, s, j)
  {
    seq(|cols|, j requires 0 <= j < |cols| => CheckAt(cols, row, s, j))
  }

  /** Names of the columns among the first `n` whose check found the value missing, in column order. */
  function MissingUpTo(cols: seq<string>, checks: seq<CellCheck>, n: nat): (r: seq<string>)
    requires |checks| == |cols| && n <= |cols|
    ensures |r| <= n
  {
    if n == 0 then []
    else MissingUpTo(cols, checks, n - 1) + (if checks[n - 1].Absent? then [cols[n - 1]] else [])
  }

  /** Findings of the first `n` checks, in column order. */
  function FindingsUpTo(checks: seq<CellCheck>, n: nat): (r: seq<Finding>)
    requires n <= |checks|
    ensures |r| <= n
  {
    if n == 0 then []
    else FindingsUpTo(checks, n - 1) + (if checks[n - 1].Flagged? then [checks[n - 1].finding] else [])
  }

  /** A column name is reported missing exactly when the check of some column of that name found it missing. */
  lemma {:induction false} MissingUpToMembers(cols: seq<string>, checks: seq<CellCheck>, n: nat, c: string)
    requires |checks| == |cols| && n <= |cols|
    ensures c in MissingUpTo(cols, checks, n) <==> exists j: nat :: j < n && cols[j] == c && checks[j].Absent?
  {
    if n > 0 {
      MissingUpToMembers(cols, checks, n - 1, c);
      var tail := if checks[n - 1].Absent? then [cols[n - 1]] else [];
      assert MissingUpTo(cols, checks, n) == MissingUpTo(cols, checks, n - 1) + tail;
      if exists j: nat :: j < n && cols[j] == c && checks[j].Absent? {
        var j: nat :| j < n && cols[j] == c && checks[j].Absent?;
        assert j == n - 1 || c in MissingUpTo(cols, checks, n - 1);
      }
    }
  }

  /** A finding is reported exactly when one of the checks yields it. */
  lemma {:induction false} FindingsUpToMembers(checks: seq<CellCheck>, n: nat, f: Finding)
    requires n <= |checks|
    ensures f in FindingsUpTo(checks, n) <==> exists j: nat :: j < n && checks[j] == Flagged(f)
  {
    if n > 0 {
      FindingsUpToMembers(checks, n - 1, f);
      var tail := if checks[n - 1].Flagged? then [checks[n - 1].finding] else [];
      assert FindingsUpTo(checks, n) == FindingsUpTo(checks, n - 1) + tail;
      if exists j: nat :: j < n && checks[j] == Flagged(f) {
        var j: nat :| j < n && checks[j] == Flagged(f);
        assert j == n - 1 || f in FindingsUpTo(checks, n - 1);
      }
    }
  }

  function FoundDetails(fs: seq<Finding>): (r: seq<Detail>)
    ensures |r| == |fs| && forall i :: 0 <= i < |fs| ==> r[i] == Found(fs[i])
  {
    seq(|fs|, i requires 0 <= i < |fs| => Found(fs[i]))
  }

  /** The frequency column exists and this row's value in it suppresses validation. */
  predicate SkipsRow(row: seq<Cell>, freqCol: Option<nat>)
  {
    freqCol.Some? && freqCol.value < |row| && IsFrequencySkip(row[freqCol.value])
  }

  /** The result the validator records for the row at position `index` (0-based). */
  function EvaluateRow(cols: seq<string>, row: seq<Cell>, s: Settings, freqCol: Option<nat>, index: nat): RowResult
    requires |row| == |cols|
    requires freqCol.Some? ==> freqCol.value < |cols|
  {
    var checked := |ValidationColumns(cols, s.skipColumns)|;
    var info := if freqCol.Some? then Some(row[freqCol.value]) else None;
    if SkipsRow(row, freqCol) then
      RowResult(index + 1, Skipped, [SkippedDueTo(row[freqCol.value])], [], [], checked, info)
    else
      var checks := RowChecks(cols, row, s);
      var missing := MissingUpTo(cols, checks, |cols|);
      var findings := FindingsUpTo(checks, |cols|);
      var status := if missing != [] then Missing else if findings != [] then Invalid else Valid;
      var details := (if missing != [] then [MissingIn(missing)] else []) + FoundDetails(findings);
      RowResult(index + 1, status, details, missing, findings, checked, info)
  }

  /** The loop over the columns of one row: the missing columns and the findings, in column order. */
  method CheckColumns(cols: seq<string>, row: seq<Cell>, s: Settings)
    returns (missing: seq<string>, invalid: seq<Finding>)
    requires |row| == |cols|
    ensures missing == MissingUpTo(cols, RowChecks(cols, row, s), |cols|)
    ensures invalid == FindingsUpTo(RowChecks(cols, row, s), |cols|)
  {
    ghost var checks := RowChecks(cols, row, s);
    missing, invalid := [], [];
    var j := 0;
    while j < |cols|
      invariant 0 <= j <= |cols|
      invariant missing == MissingUpTo(cols, checks, j)
      invariant invalid == FindingsUpTo(checks, j)
    {
      var check := CheckAt(cols, row, s, j);
      assert check == checks[j];
      if check.Absent? {
        missing := missing + [cols[j]];
      } else if check.Flagged? {
        invalid := invalid + [check.finding];
      }
      j := j + 1;
    }
  }

  /** The body of the row loop: frequency skip, then every validated column, then the verdict. */
  method ValidateRow(cols: seq<string>, row: seq<Cell>, s: Settings, freqCol: Option<nat>, index: nat)
    returns (r: RowResult)
    requires |row| == |cols|
    requires freqCol.Some? ==> freqCol.value < |cols|
    ensures r == EvaluateRow(cols, row, s, freqCol, index)
  {
    var status := Valid;
    var details: seq<Detail> := [];
    var missing: seq<string> := [];
    var invalid: seq<Finding> := [];
    var shouldValidate := true;
    var info: Option<Cell> := None;
    if freqCol.Some? {
      info := Some(row[freqCol.value]);
      if IsFrequencySkip(row[freqCol.value]) {
        shouldValidate := false;
        status := Skipped;
        details := details + [SkippedDueTo(row[freqCol.value])];
      }
    }
    if shouldValidate {
      missing, invalid := CheckColumns(cols, row, s);
      if missing != [] {
        status := Missing;
        details := details + [MissingIn(missing)];
      }
      if invalid != [] {
        if status == Valid {
          status := Invalid;
        }
        details := details + FoundDetails(invalid);
      }
    }
    r := RowResult(index + 1, status, details, missing, invalid, |ValidationColumns(cols, s.skipColumns)|, info);
  }

  /** A row's verdict: skipped by frequency, else missing before invalid before valid. */
  lemma StatusPrecedence(cols: seq<string>, row: seq<Cell>, s: Settings, freqCol: Option<nat>, index: nat)
    requires |row| == |cols|
    requires freqCol.Some? ==> freqCol.value < |cols|
    ensures var r := EvaluateRow(cols, row, s, freqCol, index);
      var skip := SkipsRow(row, freqCol);
      && (r.status == Skipped <==> skip)
      && (skip ==> r.missingColumns == [] && r.invalidValues == [] && r.details == [SkippedDueTo(row[freqCol.value])])
      && (r.status == Missing <==> !skip && r.missingColumns != [])
      && (r.status == Invalid <==> !skip && r.missingColumns == [] && r.invalidValues != [])
      && (r.status == Valid <==> !skip && r.missingColumns == [] && r.invalidValues == [])
      && r.rowIndex == index + 1
  {
  }

  /** The details of an evaluated row list each of its findings. */
  lemma DetailsListFindings(missing: seq<string>, findings: seq<Finding>)
    ensures forall f :: f in findings ==>
      Found(f) in (if missing != [] then [MissingIn(missing)] else []) + FoundDetails(findings)
  {
    var details := (if missing != [] then [MissingIn(missing)] else []) + FoundDetails(findings);
    forall f | f in findings ensures Found(f) in details {
      var i :| 0 <= i < |findings| && findings[i] == f;
      var prefix := if missing != [] then 1 else 0;
      assert details[prefix + i] == Found(f);
    }
  }

  /** Every finding of a row is listed in its details, and only a valid row has no details. */
  lemma FindingsInDetails(cols: seq<string>, row: seq<Cell>, s: Settings, freqCol: Option<nat>, index: nat)
    requires |row| == |cols|
    requires freqCol.Some? ==> freqCol.value < |cols|
    ensures forall f :: f in EvaluateRow(cols, row, s, freqCol, index).invalidValues ==>
      Found(f) in EvaluateRow(cols, row, s, freqCol, index).details
    ensures EvaluateRow(cols, row, s, freqCol, index).details == [] <==>
      EvaluateRow(cols, row, s, freqCol, index).status == Valid
  {
    var r := EvaluateRow(cols, row, s, freqCol, index);
    DetailsListFindings(r.missingColumns, r.invalidValues);
  }

  /** A row is valid exactly when it is not skipped and every validated cell is present and passes. */
  lemma ValidIffEveryCheckPasses(cols: seq<string>, row: seq<Cell>, s: Settings, freqCol: Option<nat>, index: nat)
    requires |row| == |cols|
    requires freqCol.Some? ==> freqCol.value < |cols|
    ensures EvaluateRow(cols, row, s, freqCol, index).status == Valid <==>
      !SkipsRow(row, freqCol) && forall j: nat :: j < |cols| ==> CheckAt(cols, row, s, j) == Passed
  {
    var checks := RowChecks(cols, row, s);
    MissingUpToEmpty(cols, checks, |cols|);
    FindingsUpToEmpty(checks, |cols|);
  }

  /** No column is reported missing exactly when none of the first `n` checks found a value missing. */
  lemma {:induction false} MissingUpToEmpty(cols: seq<string>, checks: seq<CellCheck>, n: nat)
    requires |checks| == |cols| && n <= |cols|
    ensures MissingUpTo(cols, checks, n) == [] <==> forall j: nat :: j < n ==> !checks[j].Absent?
  {
    if n > 0 {
      MissingUpToEmpty(cols, checks, n - 1);
    }
  }

  /** No finding is reported exactly when none of the first `n` checks flagged its value. */
  lemma {:induction false} FindingsUpToEmpty(checks: seq<CellCheck>, n: nat)
    requires n <= |checks|
    ensures FindingsUpTo(checks, n) == [] <==> forall j: nat :: j < n ==> !checks[j].Flagged?
  {
    if n > 0 {
      FindingsUpToEmpty(checks, n - 1);
    }
  }

  /** The missing columns and findings a row reports: none when it is skipped, else those of its checks. */
  lemma RowLists(cols: seq<string>, row: seq<Cell>, s: Settings, freqCol: Option<nat>, index: nat)
    requires |row| == |cols|
    requires freqCol.Some? ==> freqCol.value < |cols|
    ensures EvaluateRow(cols, row, s, freqCol, index).missingColumns ==
      if SkipsRow(row, freqCol) then [] else MissingUpTo(cols, RowChecks(cols, row, s), |cols|)
    ensures EvaluateRow(cols, row, s, freqCol, index).invalidValues ==
      if SkipsRow(row, freqCol) then [] else FindingsUpTo(RowChecks(cols, row, s), |cols|)
  {
  }

  /** With distinct column names, a column is reported missing exactly when its value is missing. */
  lemma MissingColumnExactly(cols: seq<string>, row: seq<Cell>, s: Settings, freqCol: Option<nat>, index: nat, j: nat)
    requires |row| == |cols| && j < |cols|
    requires forall a, b :: 0 <= a < b < |cols| ==> cols[a] != cols[b]
    requires freqCol.Some? ==> freqCol.value < |cols|
    ensures cols[j] in EvaluateRow(cols, row, s, freqCol, index).missingColumns <==>
      !SkipsRow(row, freqCol) && MissingAt(cols, row, s, j)
  {
    RowLists(cols, row, s, freqCol, index);
    var checks := RowChecks(cols, row, s);
    MissingUpToMembers(cols, checks, |cols|, cols[j]);
    if exists k: nat :: k < |cols| && cols[k] == cols[j] && checks[k].Absent? {
      var k: nat :| k < |cols| && cols[k] == cols[j] && checks[k].Absent?;
      assert k == j;
    }
  }

  /** With distinct column names, the findings of column `j` are at most the one its check yields. */
  lemma FindingOfColumnExactly(cols: seq<string>, row: seq<Cell>, s: Settings, freqCol: Option<nat>, index: nat, j: nat, f: Finding)
    requires |row| == |cols| && j < |cols|
    requires forall a, b :: 0 <= a < b < |cols| ==> cols[a] != cols[b]
    requires freqCol.Some? ==> freqCol.value < |cols|
    requires f.column == cols[j]
    ensures f in EvaluateRow(cols, row, s, freqCol, index).invalidValues <==>
      !SkipsRow(row, freqCol) && CheckAt(cols, row, s, j) == Flagged(f)
  {
    RowLists(cols, row, s, freqCol, index);
    var checks := RowChecks(cols, row, s);
    FindingsUpToMembers(checks, |cols|, f);
    if exists k: nat :: k < |cols| && checks[k] == Flagged(f) {
      var k: nat :| k < |cols| && checks[k] == Flagged(f);
      assert cols[k] == f.column;
    }
  }

  /**
   * A numeric value of a validated rank column that is not a percentage column is
   * reported exactly when it is above the threshold: a value equal to the threshold passes.
   */
  lemma RankThresholdRule(cols: seq<string>, row: seq<Cell>, s: Settings, freqCol: Option<nat>, index: nat, j: nat)
    requires |row| == |cols| && j < |cols|
    requires forall a, b :: 0 <= a < b < |cols| ==> cols[a] != cols[b]
    requires freqCol.Some? ==> freqCol.value < |cols|
    requires !SkipsRow(row, freqCol)
    requires !IsSkippedColumn(cols[j], s.skipColumns) && IsRankColumn(cols[j]) && !IsPercentageColumn(cols[j])
    requires IsNumeric(row[j])
    ensures RankExceeds(cols[j], row[j], s.rankThreshold) in EvaluateRow(cols, row, s, freqCol, index).invalidValues
      <==> NumericValue(row[j]) > s.rankThreshold
  {
    FindingOfColumnExactly(cols, row, s, freqCol, index, j, RankExceeds(cols[j], row[j], s.rankThreshold));
  }

  /**
   * A present, non-numeric value of a validated outcome-number column that is neither a
   * percentage column nor a rank column is reported exactly when `float()` rejects its text.
   */
  lemma OutcomeNumberRule(cols: seq<string>, row: seq<Cell>, s: Settings, freqCol: Option<nat>, index: nat, j: nat)
    requires |row| == |cols| && j < |cols|
    requires forall a, b :: 0 <= a < b < |cols| ==> cols[a] != cols[b]
    requires freqCol.Some? ==> freqCol.value < |cols|
    requires !SkipsRow(row, freqCol)
    requires !IsSkippedColumn(cols[j], s.skipColumns) && IsOutcomeNumberColumn(cols[j])
    requires !IsPercentageColumn(cols[j]) && !(IsRankColumn(cols[j]) && IsNumeric(row[j]))
    requires !IsMissingValue(row[j]) && !row[j].Num?
    ensures NotANumber(cols[j], PyStr(row[j])) in EvaluateRow(cols, row, s, freqCol, index).invalidValues
      <==> !IsFloatText(PyStr(row[j]))
  {
    FindingOfColumnExactly(cols, row, s, freqCol, index, j, NotANumber(cols[j], PyStr(row[j])));
  }

  // ---------------------------------------------------------------------------
  // Row texts

  /** `str(value)` of a cell, numbers rendered by `show`. */
  function CellText(c: Cell, show: real -> string): string
  {
    match c
    case Null => "nan"
    case Num(n) => show(n)
    case Bool(b) => if b then "True" else "False"
    case Text(s) => s
    case Other(r) => r
  }

  /** A finding's text: its column's name, then a colon. */
  function FindingText(f: Finding, show: real -> string): (r: string)
    ensures |r| > |f.column| && r[..|f.column|] == f.column && r[|f.column|] == ':'
    ensures ':' in r
  {
    match f
    case RankExceeds(col, v, t) =>
      col + ": " + CellText(v, show) + " exceeds rank threshold (" + show(t) + ")"
    case NotANumber(col, text) => col + ": '" + text + "' is not a valid number"
  }

  function DetailText(d: Detail, show: real -> string): (r: string)
    ensures ':' in r
  {
    match d
    case SkippedDueTo(v) => "Skipped due to frequency: " + CellText(v, show)
    case MissingIn(cols) => "Missing values in: " + Join(cols, ", ")
    case Found(f) => FindingText(f, show)
  }

  const AllPassed: string := "All validations passed"

  /** The `details` text of a row: its entries joined by "; ", or the all-passed text. */
  function DetailsText(ds: seq<Detail>, show: real -> string): string
  {
    if ds == [] then AllPassed
    else Join(seq(|ds|, i requires 0 <= i < |ds| => DetailText(ds[i], show)), "; ")
  }

  /** The all-passed text appears exactly for rows with nothing to report. */
  lemma DetailsTextPassedIff(ds: seq<Detail>, show: real -> string)
    ensures DetailsText(ds, show) == AllPassed <==> ds == []
  {
    if ds != [] {
      var texts := seq(|ds|, i requires 0 <= i < |ds| => DetailText(ds[i], show));
      assert ':' in texts[0];
      assert ':' in Join(texts, "; ");
      assert ':' !in AllPassed;
    }
  }

  // ---------------------------------------------------------------------------
  // The sheet summary

  datatype Summary = Summary(
    totalRows: nat,
    validRows: nat,
    errorRows: nat,
    validationRate: real,
    totalColumns: nat,
    validationColumns: nat,
    skippedColumns: seq<string>,
    columns: seq<string>,
    rankThresholdUsed: real)

  /** Number of rows whose status is valid. */
  function CountValid(rs: seq<RowResult>): (r: nat)
    ensures r <= |rs|
  {
    if rs == [] then 0 else CountValid(rs[..|rs| - 1]) + (if rs[|rs| - 1].status == Valid then 1 else 0)
  }

  /** Number of rows whose status is anything but valid. */
  function CountNotValid(rs: seq<RowResult>): (r: nat)
    ensures r <= |rs|
  {
    if rs == [] then 0 else CountNotValid(rs[..|rs| - 1]) + (if rs[|rs| - 1].status != Valid then 1 else 0)
  }

  /** Valid and error rows together are all the rows. */
  lemma {:induction false} CountsAddUp(rs: seq<RowResult>)
    ensures CountValid(rs) + CountNotValid(rs) == |rs|
  {
    if rs != [] {
      CountsAddUp(rs[..|rs| - 1]);
    }
  }

  /** Every row counts as valid exactly when every row's status is valid. */
  lemma {:induction false} AllValidIffFullCount(rs: seq<RowResult>)
    ensures CountValid(rs) == |rs| <==> forall i :: 0 <= i < |rs| ==> rs[i].status == Valid
  {
    if rs != [] {
      var n := |rs| - 1;
      AllValidIffFullCount(rs[..n]);
      assert forall i :: 0 <= i < n ==> rs[..n][i] == rs[i];
    }
  }

  /** `valid_rows / total_rows * 100`, and 0 for an empty sheet. */
  function Rate(valid: nat, total: nat): real
  {
    if total > 0 then valid as real / total as real * 100.0 else 0.0
  }

  /** The rate is a percentage, and it is 100 exactly when a non-empty sheet has only valid rows. */
  lemma RateBounds(valid: nat, total: nat)
    requires valid <= total
    ensures 0.0 <= Rate(valid, total) <= 100.0
    ensures Rate(valid, total) == 100.0 <==> total > 0 && valid == total
  {
    if total > 0 {
      var q := valid as real / total as real;
      assert q * total as real == valid as real;
      assert 0.0 <= q <= 1.0;
      if q * 100.0 == 100.0 {
        assert q == 1.0;
      }
    }
  }

  function MakeSummary(t: Table, s: Settings, results: seq<RowResult>): Summary
  {
    var valid := CountValid(results);
    Summary(|t.rows|, valid, CountNotValid(results), Rate(valid, |t.rows|),
            |t.columns|, |ValidationColumns(t.columns, s.skipColumns)|,
            SkippedColumns(t.columns, s.skipColumns), t.columns, s.rankThreshold)
  }

  // ---------------------------------------------------------------------------
  // The missing-data report

  /** Positions (0-based) of the rows whose cell in column `j` is absent. */
  function NullRows(rows: seq<seq<Cell>>, j: nat): (r: seq<nat>)
    requires forall i :: 0 <= i < |rows| ==> j < |rows[i]|
    ensures |r| == ColumnNullCount(rows, j)
    ensures forall i: nat :: i in r <==> i < |rows| && rows[i][j].Null?
    ensures forall a, b :: 0 <= a < b < |r| ==> r[a] < r[b]
  {
    if rows == [] then []
    else
      var n := |rows| - 1;
      var init := NullRows(rows[..n], j);
      assert forall k :: 0 <= k < |init| ==> init[k] in init;
      init + (if rows[n][j].Null? then [n] else [])
  }

  /** Every cell of the row is absent (true of a row with no cells). */
  predicate AllNull(row: seq<Cell>)
  {
    forall j :: 0 <= j < |row| ==> row[j].Null?
  }

  /** More than half of the table's columns are absent in the row. */
  predicate MostlyNull(row: seq<Cell>, ncols: nat)
  {
    NullCount(row) as real > ncols as real * 0.5
  }

  /** Positions (0-based) of the rows with every cell absent. */
  function EmptyRows(rows: seq<seq<Cell>>): (r: seq<nat>)
    ensures forall i: nat :: i in r <==> i < |rows| && AllNull(rows[i])
    ensures forall a, b :: 0 <= a < b < |r| ==> r[a] < r[b]
  {
    if rows == [] then []
    else
      var n := |rows| - 1;
      var init := EmptyRows(rows[..n]);
      assert forall k :: 0 <= k < |init| ==> init[k] in init;
      init + (if AllNull(rows[n]) then [n] else [])
  }

  /** Positions (0-based) of the rows with more than half of their cells absent. */
  function MostlyNullRows(rows: seq<seq<Cell>>, ncols: nat): (r: seq<nat>)
    ensures forall i: nat :: i in r <==> i < |rows| && MostlyNull(rows[i], ncols)
    ensures forall a, b :: 0 <= a < b < |r| ==> r[a] < r[b]
  {
    if rows == [] then []
    else
      var n := |rows| - 1;
      var init := MostlyNullRows(rows[..n], ncols);
      assert forall k :: 0 <= k < |init| ==> init[k] in init;
      init + (if MostlyNull(rows[n], ncols) then [n] else [])
  }

  /** An entry of `missing_by_column`. */
  datatype ColumnGap = ColumnGap(column: string, count: nat, rows: seq<nat>)

  function IndexOf(cols: seq<string>, c: string): (r: nat)
    requires c in cols
    ensures r < |cols| && cols[r] == c
  {
    if cols[0] == c then 0 else IndexOf(cols[1..], c) + 1
  }

  function GapOf(t: Table, c: string): (g: ColumnGap)
    requires c in t.columns
    ensures g.column == c && g.count == |g.rows|
    ensures forall i: nat :: i in g.rows <==> i < |t.rows| && t.rows[i][IndexOf(t.columns, c)].Null?
  {
    var j := IndexOf(t.columns, c);
    var rows := NullRows(t.rows, j);
    ColumnGap(c, |rows|, rows)
  }

  /**
   * `missing_by_column`: one entry per listed non-nullable column of the table that has
   * absent cells, keyed by name, so a name listed twice yields one entry.
   */
  function ColumnGaps(t: Table, names: seq<string>): (r: seq<ColumnGap>)
    ensures forall k :: 0 <= k < |r| ==> r[k].column in names && r[k].column in t.columns
    ensures forall k :: 0 <= k < |r| ==> r[k] == GapOf(t, r[k].column) && r[k].count > 0
  {
    if names == [] then []
    else
      var n := |names| - 1;
      var init := ColumnGaps(t, names[..n]);
      var c := names[n];
      assert forall x :: x in names[..n] ==> x in names;
      if c in names[..n] || c !in t.columns || GapOf(t, c).count == 0 then init
      else init + [GapOf(t, c)]
  }

  /** A listed column of the table has an entry exactly when it has absent cells. */
  lemma {:induction false} ColumnGapsCover(t: Table, names: seq<string>, c: string)
    ensures c in names && c in t.columns && GapOf(t, c).count > 0 <==>
      exists k :: 0 <= k < |ColumnGaps(t, names)| && ColumnGaps(t, names)[k].column == c
  {
    if names != [] {
      var n := |names| - 1;
      ColumnGapsCover(t, names[..n], c);
      var init := ColumnGaps(t, names[..n]);
      var last := names[n];
      assert c in names <==> c in names[..n] || c == last;
      if !(last in names[..n] || last !in t.columns || GapOf(t, last).count == 0) {
        var r := init + [GapOf(t, last)];
        assert ColumnGaps(t, names) == r;
        assert r[|init|].column == last;
        if exists k :: 0 <= k < |init| && init[k].column == c {
          var k :| 0 <= k < |init| && init[k].column == c;
          assert r[k].column == c;
        }
        if exists k :: 0 <= k < |r| && r[k].column == c {
          var k :| 0 <= k < |r| && r[k].column == c;
          assert k == |init| || init[k].column == c;
        }
      } else {
        assert ColumnGaps(t, names) == init;
      }
    }
  }

  /** No two entries are for the same column. */
  predicate DistinctColumns(gaps: seq<ColumnGap>)
  {
    forall a, b :: 0 <= a < b < |gaps| ==> gaps[a].column != gaps[b].column
  }

  /** No column has two entries. */
  lemma {:induction false} ColumnGapsDistinct(t: Table, names: seq<string>)
    ensures DistinctColumns(ColumnGaps(t, names))
  {
    if names != [] {
      var n := |names| - 1;
      ColumnGapsDistinct(t, names[..n]);
      var init := ColumnGaps(t, names[..n]);
      var last := names[n];
      if !(last in names[..n] || last !in t.columns || GapOf(t, last).count == 0) {
        var r := init + [GapOf(t, last)];
        assert ColumnGaps(t, names) == r;
        forall a, b | 0 <= a < b < |r| ensures r[a].column != r[b].column {
          assert r[a] == init[a];
          if b == |init| {
            assert r[b].column == last;
            assert init[a].column in names[..n];
          } else {
            assert r[b] == init[b];
          }
        }
      } else {
        assert ColumnGaps(t, names) == init;
      }
    }
  }

  datatype MissingData = MissingData(
    hasMissingData: bool,
    missingRows: seq<nat>,
    missingByColumn: seq<ColumnGap>,
    rowsWithManyMissing: Option<seq<nat>>,
    totalMissingValues: nat)

  /** `_check_missing_data`: empty rows, gaps in non-nullable columns, mostly-empty rows, the null total. */
  function CheckMissingData(t: Table, nonNullable: seq<string>): (r: MissingData)
    ensures forall i: nat :: i in r.missingRows <==> i < |t.rows| && AllNull(t.rows[i])
    ensures r.rowsWithManyMissing.Some? <==> exists i :: 0 <= i < |t.rows| && MostlyNull(t.rows[i], |t.columns|)
    ensures r.rowsWithManyMissing.Some? ==>
      forall i: nat :: i in r.rowsWithManyMissing.value <==> i < |t.rows| && MostlyNull(t.rows[i], |t.columns|)
    ensures r.missingByColumn == ColumnGaps(t, nonNullable)
    ensures r.hasMissingData <==> r.missingRows != [] || r.missingByColumn != [] || r.rowsWithManyMissing.Some?
    ensures r.totalMissingValues == RowNullTotal(t.rows) == Sum(GetDataSummary(t).nullCountByColumn)
  {
    var empty := EmptyRows(t.rows);
    var gaps := ColumnGaps(t, nonNullable);
    var many := MostlyNullRows(t.rows, |t.columns|);
    assert many != [] ==> many[0] in many;
    var manyEntry := if many == [] then None else Some(many);
    MissingData(empty != [] || gaps != [] || manyEntry.Some?, empty, gaps, manyEntry, RowNullTotal(t.rows))
  }

  /**
   * `has_missing_data` is set exactly when some row is completely empty, some listed
   * non-nullable column of the table has an absent cell, or some row has more than half
   * of its cells absent.
   */
  lemma HasMissingDataIff(t: Table, nonNullable: seq<string>)
    ensures CheckMissingData(t, nonNullable).hasMissingData <==>
      || (exists i :: 0 <= i < |t.rows| && AllNull(t.rows[i]))
      || (exists c :: c in nonNullable && c in t.columns && GapOf(t, c).count > 0)
      || (exists i :: 0 <= i < |t.rows| && MostlyNull(t.rows[i], |t.columns|))
  {
    EmptyRowsExist(t.rows);
    ColumnGapsExist(t, nonNullable);
  }

  /** Some row is listed as empty exactly when some row is completely empty. */
  lemma EmptyRowsExist(rows: seq<seq<Cell>>)
    ensures EmptyRows(rows) != [] <==> exists i :: 0 <= i < |rows| && AllNull(rows[i])
  {
    var r := EmptyRows(rows);
    if r != [] {
      assert r[0] in r;
    }
    if exists i :: 0 <= i < |rows| && AllNull(rows[i]) {
      var i :| 0 <= i < |rows| && AllNull(rows[i]);
      assert i in r;
    }
  }

  /** Some column gap is reported exactly when a listed column of the table has an absent cell. */
  lemma ColumnGapsExist(t: Table, names: seq<string>)
    ensures ColumnGaps(t, names) != [] <==> exists c :: c in names && c in t.columns && GapOf(t, c).count > 0
  {
    var r := ColumnGaps(t, names);
    if r != [] {
      var c := r[0].column;
      assert c in names && c in t.columns && GapOf(t, c).count > 0;
    }
    if exists c :: c in names && c in t.columns && GapOf(t, c).count > 0 {
      var c :| c in names && c in t.columns && GapOf(t, c).count > 0;
      ColumnGapsCover(t, names, c);
    }
  }

  /** Every row of a table without columns counts as completely empty. */
  lemma NoColumnsMeansEveryRowEmpty(t: Table, nonNullable: seq<string>)
    requires t.columns == [] && t.rows != []
    ensures var r := CheckMissingData(t, nonNullable);
      r.hasMissingData && forall i: nat :: i < |t.rows| ==> i in r.missingRows
  {
    var r := CheckMissingData(t, nonNullable);
    assert AllNull(t.rows[0]);
    assert 0 in r.missingRows;
  }

  // ---------------------------------------------------------------------------
  // The calendar rule for scheduled products

  const MonthNames: seq<string> := ["January", "February", "March", "April", "May", "June", "July",
                                    "August", "September", "October", "November", "December"]

  datatype FrequencyInfo = FrequencyInfo(
    product: string, frequency: Value, shouldValidate: bool, status: string, message: string)

  /**
   * The validator's `product_schedule` as written: it asks the configuration object for an
   * attribute of that name, which the configuration class does not define, so the table
   * is the empty mapping whatever the configuration document holds.
   */
  function ProductScheduleAsWritten(doc: Value): Value
  {
    EmptyMap
  }

  /**
   * The schedule table the code evidently means: `get('product_schedule', {})` on the
   * configuration document. It is the document's `product_schedule` entry, or the empty
   * mapping when there is none.
   */
  function ProductSchedule(doc: Value): (r: Value)
    ensures r == SectionOrEmpty(doc, "product_schedule")
  {
    PlainKeyLookup(doc, "product_schedule", EmptyMap);
    Lookup(doc, "product_schedule", EmptyMap)
  }

  /**
   * `_check_product_frequency` in month `month`: monthly products always validate,
   * bi-annual ones in June and December, annual ones in December. A schedule or product
   * entry that is not a mapping falls back to validating.
   */
  function CheckProductFrequency(schedule: Value, product: string, month: nat): (r: FrequencyInfo)
    requires 1 <= month <= 12
    ensures r.product == product
    ensures !schedule.VMap? || (Find(schedule.entries, product).Some? && !Find(schedule.entries, product).value.VMap?)
      ==> r.frequency == VStr("unknown") && r.shouldValidate
    ensures schedule.VMap? && Find(schedule.entries, product).None? ==> r.frequency == VStr("monthly")
    ensures schedule.VMap? && Find(schedule.entries, product).Some? && Find(schedule.entries, product).value.VMap? ==>
      r.frequency == match Find(Find(schedule.entries, product).value.entries, "frequency")
        case None => VStr("monthly")
        case Some(f) => f
    ensures r.shouldValidate <==> r.status == "valid"
    ensures r.status == "skipped" <==> !r.shouldValidate
    ensures !r.shouldValidate <==>
      (r.frequency == VStr("bi-annual") && month != 6 && month != 12) || (r.frequency == VStr("annual") && month != 12)
  {
    var entry :=
      if !schedule.VMap? then None
      else if Find(schedule.entries, product).None? then Some(EmptyMap)
      else Find(schedule.entries, product);
    if entry.None? || !entry.value.VMap? then
      FrequencyInfo(product, VStr("unknown"), true, "valid", "Frequency check failed - defaulting to validate")
    else
      var found := Find(entry.value.entries, "frequency");
      var frequency := if found.None? then VStr("monthly") else found.value;
      var name := MonthNames[month - 1];
      if frequency == VStr("monthly") then
        FrequencyInfo(product, frequency, true, "valid", "Monthly validation - always active")
      else if frequency == VStr("bi-annual") then
        if month != 6 && month != 12 then
          FrequencyInfo(product, frequency, false, "skipped",
                        "Bi-annual product - validation only in June/December (current: " + name + ")")
        else FrequencyInfo(product, frequency, true, "valid", "Bi-annual validation active - " + name)
      else if frequency == VStr("annual") then
        if month != 12 then
          FrequencyInfo(product, frequency, false, "skipped",
                        "Annual product - validation only in December (current: " + name + ")")
        else FrequencyInfo(product, frequency, true, "valid", "Annual validation active - December")
      else FrequencyInfo(product, frequency, true, "valid", "")
  }

  /** A product the schedule does not list is treated as monthly. */
  lemma UnlistedProductIsMonthly(schedule: Value, product: string, month: nat)
    requires 1 <= month <= 12
    requires schedule.VMap? && Find(schedule.entries, product).None?
    ensures CheckProductFrequency(schedule, product, month)
      == FrequencyInfo(product, VStr("monthly"), true, "valid", "Monthly validation - always active")
  {
    assert Find(EmptyMap.entries, "frequency").None?;
  }

  // ---------------------------------------------------------------------------
  // validate_spreadsheet

  /** An entry of a result's `errors`: a row that failed, or the reason the sheet could not be read. */
  datatype ErrorEntry = RowError(row: RowResult) | ValidationError(message: string)

  datatype SheetReport = SheetReport(
    isValid: bool,
    errors: seq<RowResult>,
    warnings: seq<RowResult>,
    missingData: MissingData,
    summary: Summary,
    results: seq<RowResult>,
    columnsValidated: seq<string>,
    columnsSkipped: seq<string>,
    rankThreshold: real)

  datatype ValidationResult =
    | Validated(filePath: string, sheetName: Option<string>, report: SheetReport)
    | ValidationFailed(filePath: string, message: string)

  function IsValid(v: ValidationResult): bool
  {
    v.Validated? && v.report.isValid
  }

  /** The `errors` list of a result. */
  function Errors(v: ValidationResult): seq<ErrorEntry>
  {
    match v
    case Validated(_, _, report) => seq(|report.errors|, i requires 0 <= i < |report.errors| => RowError(report.errors[i]))
    case ValidationFailed(_, message) => [ValidationError(message)]
  }

  /** The rows with status `st`, in row order. */
  function RowsWithStatus(rs: seq<RowResult>, st: Status): (r: seq<RowResult>)
    ensures |r| <= |rs|
    ensures forall x :: x in r <==> x in rs && x.status == st
  {
    if rs == [] then []
    else
      var n := |rs| - 1;
      RowsWithStatus(rs[..n], st) + (if rs[n].status == st then [rs[n]] else [])
  }

  /** The filter keeps row order: the rows of `a + b` with a status are those of `a`, then those of `b`. */
  lemma {:induction false} RowsWithStatusAppend(a: seq<RowResult>, b: seq<RowResult>, st: Status)
    ensures RowsWithStatus(a + b, st) == RowsWithStatus(a, st) + RowsWithStatus(b, st)
  {
    if b == [] {
      assert a + b == a;
    } else {
      InitOfAppend(a, b);
      RowsWithStatusAppend(a, b[..|b| - 1], st);
    }
  }

  /** One row is kept exactly when it has the status. */
  lemma RowsWithStatusOne(x: RowResult, st: Status)
    ensures RowsWithStatus([x], st) == if x.status == st then [x] else []
  {
    assert [x][..0] == [];
  }

  /** The results of every row of the table, in row order. */
  function EvaluateRows(t: Table, s: Settings): (r: seq<RowResult>)
    ensures |r| == |t.rows|
    ensures forall i :: 0 <= i < |t.rows| ==> r[i] == EvaluateRow(t.columns, t.rows[i], s, FrequencyColumn(t.columns), i)
  {
    var freq := FrequencyColumn(t.columns);
    seq(|t.rows|, i requires 0 <= i < |t.rows| => EvaluateRow(t.columns, t.rows[i], s, freq, i))
  }

  function Report(t: Table, s: Settings, results: seq<RowResult>): SheetReport
  {
    var summary := MakeSummary(t, s, results);
    SheetReport(
      forall i :: 0 <= i < |results| ==> results[i].status == Valid,
      RowsWithStatus(results, Invalid),
      RowsWithStatus(results, Missing),
      CheckMissingData(t, s.nonNullableColumns),
      summary,
      results,
      ValidationColumns(t.columns, s.skipColumns),
      summary.skippedColumns,
      s.rankThreshold)
  }

  /** What `validate_spreadsheet` returns for the file, given the loader's outcome. */
  function Validate(path: string, fileExists: bool, sheet: Option<string>, read: Result<Table>, s: Settings): ValidationResult
  {
    match ParseExcelFile(path, fileExists, read)
    case Err(message) => ValidationFailed(path, message)
    case Ok(t) => Validated(path, sheet, Report(t, s, EvaluateRows(t, s)))
  }

  /** The validator's loop over the rows of the sheet. */
  /** The results follow the table: the `i`th result is row `i`'s, with the 1-based index `i + 1`. */
  lemma RowsInTableOrder(t: Table, s: Settings, i: nat)
    requires i < |t.rows|
    ensures EvaluateRows(t, s)[i].rowIndex == i + 1
    ensures EvaluateRows(t, s)[i].missingColumns ==
      (if SkipsRow(t.rows[i], FrequencyColumn(t.columns)) then []
       else MissingUpTo(t.columns, RowChecks(t.columns, t.rows[i], s), |t.columns|))
  {
    RowLists(t.columns, t.rows[i], s, FrequencyColumn(t.columns), i);
  }

  method ValidateRows(t: Table, s: Settings) returns (results: seq<RowResult>)
    ensures results == EvaluateRows(t, s)
  {
    var freq := FindFrequencyColumn(t.columns);
    results := [];
    var i := 0;
    while i < |t.rows|
      invariant 0 <= i <= |t.rows|
      invariant results == EvaluateRows(t, s)[..i]
    {
      var r := ValidateRow(t.columns, t.rows[i], s, freq, i);
      PrefixStep(EvaluateRows(t, s), i, r);
      results := results + [r];
      i := i + 1;
    }
  }

  /** `validate_spreadsheet`: load the sheet, validate every row, report. */
  method ValidateSpreadsheet(path: string, fileExists: bool, sheet: Option<string>, read: Result<Table>, s: Settings)
    returns (v: ValidationResult)
    ensures v == Validate(path, fileExists, sheet, read, s)
  {
    var parsed := ParseExcelFile(path, fileExists, read);
    if parsed.Err? {
      return ValidationFailed(path, parsed.message);
    }
    var results := ValidateRows(parsed.value, s);
    v := Validated(path, sheet, Report(parsed.value, s, results));
  }

  /**
   * A sheet is valid exactly when it has no errors, no warnings and no row skipped by
   * frequency: a skipped row makes the sheet invalid without being listed anywhere.
   */
  lemma SheetValidIff(t: Table, s: Settings, results: seq<RowResult>)
    ensures var r := Report(t, s, results);
      && (r.isValid <==> r.errors == [] && r.warnings == [] && forall i :: 0 <= i < |results| ==> results[i].status != Skipped)
      && (|results| == |t.rows| ==> (r.isValid <==> r.summary.validRows == r.summary.totalRows))
      && (|results| == |t.rows| ==> r.summary.validRows + r.summary.errorRows == r.summary.totalRows)
  {
    CountsAddUp(results);
    AllValidIffFullCount(results);
    NoneWithStatus(results, Invalid);
    NoneWithStatus(results, Missing);
  }

  /** The row entries of `errors` are rows whose status is `invalid`. */
  lemma ErrorsAreInvalidRows(path: string, fileExists: bool, sheet: Option<string>, read: Result<Table>, s: Settings)
    ensures forall e :: e in Errors(Validate(path, fileExists, sheet, read, s)) && e.RowError? ==> e.row.status == Invalid
  {
    var v := Validate(path, fileExists, sheet, read, s);
    forall e | e in Errors(v) && e.RowError?
      ensures e.row.status == Invalid
    {
      var i :| 0 <= i < |Errors(v)| && Errors(v)[i] == e;
      assert e.row in v.report.errors;
    }
  }

  /** No row is listed for a status exactly when no row has it. */
  lemma {:induction false} NoneWithStatus(rs: seq<RowResult>, st: Status)
    ensures RowsWithStatus(rs, st) == [] <==> forall i :: 0 <= i < |rs| ==> rs[i].status != st
  {
    if rs != [] {
      var n := |rs| - 1;
      NoneWithStatus(rs[..n], st);
      assert forall i :: 0 <= i < n ==> rs[..n][i] == rs[i];
    }
  }

  /** A file that cannot be loaded gives an invalid result carrying the loader's message as its one error. */
  lemma FailedLoadResult(path: string, fileExists: bool, sheet: Option<string>, read: Result<Table>, s: Settings)
    requires !fileExists || !IsSupportedFile(path) || read.Err?
    ensures var v := Validate(path, fileExists, sheet, read, s);
      && !IsValid(v)
      && Errors(v) == [ValidationError(ParseExcelFile(path, fileExists, read).message)]
      && (!fileExists ==> Errors(v) == [ValidationError("File not found: " + path)])
  {
  }
}
