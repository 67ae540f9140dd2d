/**
 * Tables as the spreadsheet loader hands them over, the checks `parse_excel_file`
 * makes before reading, `validate_file_structure` and `get_data_summary`.
 * Reading the workbook itself is an outside step: its outcome is an input here.
 */
module ExcelParser {
  import opened Wrappers
  import opened Strings

  /** One cell: absent (None, NaN, NaT), a number, a boolean, a string, or any other object with its `str()` text. */
  datatype Cell = Null | Num(n: real) | Bool(b: bool) | Text(s: string) | Other(repr: string)

  datatype Frame = Frame(columns: seq<string>, rows: seq<seq<Cell>>)

  /** Every row has one cell per column; column names are distinct (the loader renames repeated headers). */
  predicate WellFormed(f: Frame)
  {
    && (forall i :: 0 <= i < |f.rows| ==> |f.rows[i]| == |f.columns|)
    && (forall i, j :: 0 <= i < j < |f.columns| ==> f.columns[i] != f.columns[j])
  }

  type Table = f: Frame | WellFormed(f) witness Frame([], [])

  // ---------------------------------------------------------------------------
  // File checks made before reading

  const SupportedFormats: seq<string> := [".xlsx", ".xls"]

  function LastIndexOf(s: string, c: char): (r: Option<nat>)
    ensures r.Some? ==> r.value < |s| && s[r.value] == c && c !in s[r.value + 1..]
    ensures r.None? ==> c !in s
  {
    if s == [] then None
    else if s[|s| - 1] == c then Some(|s| - 1)
    else
      var r := LastIndexOf(s[..|s| - 1], c);
      assert r.Some? ==> s[r.value + 1..] == s[..|s| - 1][r.value + 1..] + [s[|s| - 1]];
      assert r.None? ==> s == s[..|s| - 1] + [s[|s| - 1]];
      r
  }

  /** The path without its trailing slashes: only `/` characters are dropped, and all of them. */
  function DropTrailingSlashes(path: string): (r: string)
    ensures |r| <= |path| && r == path[..|r|]
    ensures forall i :: |r| <= i < |path| ==> path[i] == '/'
    ensures r != [] ==> r[|r| - 1] != '/'
  {
    if path != [] && path[|path| - 1] == '/' then DropTrailingSlashes(path[..|path| - 1]) else path
  }

  /** `PurePath.name`: the text after the last `/` of the path, trailing slashes ignored. */
  function FileName(path: string): (r: string)
    ensures '/' !in r
    ensures |r| <= |DropTrailingSlashes(path)|
    ensures r == DropTrailingSlashes(path)[|DropTrailingSlashes(path)| - |r|..]
    ensures |r| < |DropTrailingSlashes(path)| ==>
      DropTrailingSlashes(path)[|DropTrailingSlashes(path)| - |r| - 1] == '/'
  {
    var p := DropTrailingSlashes(path);
    match LastIndexOf(p, '/')
    case None => p
    case Some(i) => p[i + 1..]
  }

  /** `PurePath.suffix`: from the last dot of the name, unless that dot opens or ends the name. */
  function Suffix(path: string): (r: string)
    ensures r == "" || (|r| >= 2 && r[0] == '.' && '.' !in r[1..] && '/' !in r)
    ensures r != "" ==> |r| < |FileName(path)| && r == FileName(path)[|FileName(path)| - |r|..]
  {
    var name := FileName(path);
    match LastIndexOf(name, '.')
    case None => ""
    case Some(i) =>
      if 0 < i < |name| - 1 then
        assert name[i..][1..] == name[i + 1..];
        assert forall c :: c in name[i..] ==> c in name;
        name[i..]
      else ""
  }

  /** The lower-cased suffix is `.xlsx` or `.xls`. */
  predicate IsSupportedFile(path: string)
  {
    Lower(Suffix(path)) in SupportedFormats
  }

  /** The last occurrence of `c` is at `i` when `s[i]` is `c` and none follows it. */
  lemma LastIndexOfAt(s: string, c: char, i: nat)
    requires i < |s| && s[i] == c && c !in s[i + 1..]
    ensures LastIndexOf(s, c) == Some(i)
  {
    var r := LastIndexOf(s, c);
    assert c in s;
    assert forall k :: i < k < |s| ==> s[k] == s[i + 1..][k - i - 1];
    assert forall k :: r.value < k < |s| ==> s[k] == s[r.value + 1..][k - r.value - 1];
  }

  /** A plain file name `stem + ext` has suffix `ext` when the stem is not empty. */
  lemma SuffixOfPlainName(stem: string, ext: string)
    requires stem != [] && '/' !in stem
    requires |ext| >= 2 && ext[0] == '.' && '.' !in ext[1..] && '/' !in ext
    ensures Suffix(stem + ext) == ext
  {
    var name := stem + ext;
    NoSlashInName(stem, ext);
    PlainFileName(name);
    assert name[|stem|] == '.' && name[|stem| + 1..] == ext[1..];
    LastIndexOfAt(name, '.', |stem|);
    assert name[|stem|..] == ext;
  }

  /** After the last slash: the name of `dir/name` is `name`. */
  lemma FileNameAfterSlash(dir: string, name: string)
    requires name != [] && '/' !in name
    ensures FileName(dir + "/" + name) == name
  {
    var path := dir + "/" + name;
    assert path[|path| - 1] == name[|name| - 1];
    assert DropTrailingSlashes(path) == path;
    assert path[|dir|] == '/' && path[|dir| + 1..] == name;
    LastIndexOfAt(path, '/', |dir|);
  }

  /** The suffix depends on the file name alone. */
  lemma SuffixOfSameName(p: string, q: string)
    requires FileName(p) == FileName(q)
    ensures Suffix(p) == Suffix(q)
  {
  }

  /** A non-empty name without slashes is its own file name. */
  lemma PlainFileName(name: string)
    requires name != [] && '/' !in name
    ensures FileName(name) == name
  {
    assert DropTrailingSlashes(name) == name;
  }

  lemma NoSlashInName(stem: string, ext: string)
    requires '/' !in stem && '/' !in ext
    ensures '/' !in stem + ext
  {
    forall k | 0 <= k < |stem + ext| ensures (stem + ext)[k] != '/' {
      if k < |stem| { assert (stem + ext)[k] == stem[k]; } else { assert (stem + ext)[k] == ext[k - |stem|]; }
    }
  }

  /** Only the last component counts: `dir/stem.ext` has suffix `.ext`, whatever the directory. */
  lemma SuffixInDirectory(dir: string, stem: string, ext: string)
    requires stem != [] && '/' !in stem
    requires |ext| >= 2 && ext[0] == '.' && '.' !in ext[1..] && '/' !in ext
    ensures Suffix(dir + "/" + (stem + ext)) == ext
  {
    var name := stem + ext;
    SuffixOfPlainName(stem, ext);
    NoSlashInName(stem, ext);
    FileNameAfterSlash(dir, name);
    PlainFileName(name);
    SuffixOfSameName(dir + "/" + name, name);
  }

  /** Why the loader refused a file, or the reader's own failure. */
  function ParseExcelFile(path: string, fileExists: bool, read: Result<Table>): (r: Result<Table>)
    ensures !fileExists ==> r == Err("File not found: " + path)
    ensures fileExists && !IsSupportedFile(path) ==> r == Err("Unsupported file format: " + Suffix(path))
    ensures r.Ok? <==> fileExists && IsSupportedFile(path) && read.Ok?
    ensures r.Ok? ==> r == read
  {
    if !fileExists then Err("File not found: " + path)
    else if !IsSupportedFile(path) then Err("Unsupported file format: " + Suffix(path))
    else read
  }

  // ---------------------------------------------------------------------------
  // validate_file_structure

  datatype StructureCheck = StructureCheck(isValid: bool, missingColumns: seq<string>)

  /** The required names absent from `columns`, in required order, repeats kept. */
  function MissingRequired(columns: seq<string>, required: seq<string>): (r: seq<string>)
    ensures |r| <= |required|
    ensures forall c :: c in r ==> c in required && c !in columns
    ensures forall c :: c in columns ==> multiset(r)[c] == 0
    ensures forall c :: c !in columns ==> multiset(r)[c] == multiset(required)[c]
  {
    if required == [] then []
    else
      var rest := MissingRequired(columns, required[1..]);
      assert required == [required[0]] + required[1..];
      if required[0] in columns then rest else [required[0]] + rest
  }

  /** The missing names of a longer list are those of its parts, in the same order. */
  lemma {:induction false} MissingRequiredAppend(columns: seq<string>, a: seq<string>, b: seq<string>)
    ensures MissingRequired(columns, a + b) == MissingRequired(columns, a) + MissingRequired(columns, b)
  {
    if a != [] {
      TailOfAppend(a, b);
      MissingRequiredAppend(columns, a[1..], b);
    } else {
      assert a + b == b;
    }
  }

  /** One required name is missing exactly when it is not a column. */
  lemma MissingRequiredOne(columns: seq<string>, c: string)
    ensures MissingRequired(columns, [c]) == if c in columns then [] else [c]
  {
    assert [c][1..] == [];
  }

  function ValidateFileStructure(t: Table, required: seq<string>): (r: StructureCheck)
    ensures r.isValid <==> r.missingColumns == []
    ensures r.isValid <==> forall c :: c in required ==> c in t.columns
    ensures forall c :: c in required && c !in r.missingColumns ==> c in t.columns
    ensures forall c :: c !in t.columns ==> multiset(r.missingColumns)[c] == multiset(required)[c]
    ensures r.missingColumns == MissingRequired(t.columns, required)
  {
    var missing := MissingRequired(t.columns, required);
    StructureCheck(|missing| == 0, missing)
  }

  // ---------------------------------------------------------------------------
  // Null counts and get_data_summary

  function NullIndicator(c: Cell): nat
  {
    if c.Null? then 1 else 0
  }

  /** Number of absent cells in a row. */
  function NullCount(cells: seq<Cell>): nat
  {
    if cells == [] then 0 else NullCount(cells[..|cells| - 1]) + NullIndicator(cells[|cells| - 1])
  }

  /** Number of rows whose cell in column `j` is absent. */
  function ColumnNullCount(rows: seq<seq<Cell>>, j: nat): nat
    requires forall i :: 0 <= i < |rows| ==> j < |rows[i]|
  {
    if rows == [] then 0
    else ColumnNullCount(rows[..|rows| - 1], j) + NullIndicator(rows[|rows| - 1][j])
  }

  /** `df.isnull().sum()`: the per-column counts, in column order. */
  function ColumnNullCounts(rows: seq<seq<Cell>>, n: nat): seq<nat>
    requires forall i :: 0 <= i < |rows| ==> |rows[i]| == n
  {
    seq(n, j requires 0 <= j < n => ColumnNullCount(rows, j))
  }

  function Sum(s: seq<nat>): nat
  {
    if s == [] then 0 else Sum(s[..|s| - 1]) + s[|s| - 1]
  }

  /** Number of absent cells, counted row by row. */
  function RowNullTotal(rows: seq<seq<Cell>>): nat
  {
    if rows == [] then 0 else RowNullTotal(rows[..|rows| - 1]) + NullCount(rows[|rows| - 1])
  }

  lemma {:induction false} SumPointwise(a: seq<nat>, b: seq<nat>)
    requires |a| == |b|
    ensures Sum(seq(|a|, i requires 0 <= i < |a| => a[i] + b[i])) == Sum(a) + Sum(b)
  {
    if a != [] {
      var n := |a| - 1;
      var both := seq(|a|, i requires 0 <= i < |a| => a[i] + b[i]);
      var init := seq(n, i requires 0 <= i < n => a[..n][i] + b[..n][i]);
      assert both[..n] == init;
      SumPointwise(a[..n], b[..n]);
    }
  }

  lemma {:induction false} SumOfIndicators(row: seq<Cell>)
    ensures Sum(seq(|row|, j requires 0 <= j < |row| => NullIndicator(row[j]))) == NullCount(row)
  {
    if row != [] {
      var n := |row| - 1;
      var all := seq(|row|, j requires 0 <= j < |row| => NullIndicator(row[j]));
      var init := seq(n, j requires 0 <= j < n => NullIndicator(row[..n][j]));
      assert all[..n] == init;
      SumOfIndicators(row[..n]);
    }
  }

  /** Summing the per-column null counts counts every absent cell once. */
  lemma {:induction false} ColumnTotalsMatchRowTotals(rows: seq<seq<Cell>>, n: nat)
    requires forall i :: 0 <= i < |rows| ==> |rows[i]| == n
    ensures Sum(ColumnNullCounts(rows, n)) == RowNullTotal(rows)
  {
    if rows == [] {
      var zeros := ColumnNullCounts(rows, n);
      assert forall j :: 0 <= j < n ==> zeros[j] == 0;
      ZerosSum(zeros);
    } else {
      var k := |rows| - 1;
      var init, last := rows[..k], rows[k];
      ColumnTotalsMatchRowTotals(init, n);
      var a := ColumnNullCounts(init, n);
      var b := seq(n, j requires 0 <= j < n => NullIndicator(last[j]));
      assert ColumnNullCounts(rows, n) == seq(n, j requires 0 <= j < n => a[j] + b[j]);
      SumPointwise(a, b);
      SumOfIndicators(last);
    }
  }

  lemma {:induction false} ZerosSum(s: seq<nat>)
    requires forall j :: 0 <= j < |s| ==> s[j] == 0
    ensures Sum(s) == 0
  {
    if s != [] { ZerosSum(s[..|s| - 1]); }
  }

  datatype DataSummary = DataSummary(
    totalRows: nat,
    totalColumns: nat,
    columns: seq<string>,
    nullCountByColumn: seq<nat>,
    totalNullValues: nat)

  /** `get_data_summary`, without the pandas dtype names. */
  function GetDataSummary(t: Table): (r: DataSummary)
    ensures r.totalRows == |t.rows| && r.totalColumns == |t.columns| && r.columns == t.columns
    ensures |r.nullCountByColumn| == |t.columns|
    ensures forall j :: 0 <= j < |t.columns| ==> r.nullCountByColumn[j] == ColumnNullCount(t.rows, j)
    ensures r.totalNullValues == Sum(r.nullCountByColumn) == RowNullTotal(t.rows)
  {
    var counts := ColumnNullCounts(t.rows, |t.columns|);
    ColumnTotalsMatchRowTotals(t.rows, |t.columns|);
    DataSummary(|t.rows|, |t.columns|, t.columns, counts, Sum(counts))
  }
}
