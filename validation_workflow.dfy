/**
 * The validation workflow: one sheet at a time (`run`), and a whole workbook
 * (`run_all_sheets`) with its merged error list, per-sheet error counts, the
 * deadline-based periodic trigger and the single aggregate notification.
 * Reading the workbook and the clock are outside: the sheets and today's date
 * are inputs.
 */
module ValidationWorkflow {
  import opened Wrappers
  import opened NumberSyntax
  import opened Configuration
  import opened ExcelParser
  import opened DataValidator
  import Notifications

  // ---------------------------------------------------------------------------
  // Python values met by the schedule loop

  /** Today's date, as far as the deadline rules look at it. */
  datatype Date = Date(day: nat, month: nat)

  /** `int(x)` for a float `x`: truncation toward zero. */
  function Truncate(x: real): (r: int)
    ensures x >= 0.0 ==> r as real <= x < r as real + 1.0
    ensures x < 0.0 ==> r as real - 1.0 < x <= r as real
  {
    if x >= 0.0 then x.Floor else -((-x).Floor)
  }

  /** A whole number truncates to itself. */
  lemma TruncateWhole(n: int)
    ensures Truncate(n as real) == n
  {
    if n < 0 {
      assert -(n as real) == (-n) as real;
    }
  }

  /** `int(v)`, or the error it raises (`int(None)` among them). */
  function IntOf(v: Value): (r: Result<int>)
    ensures v.VNull? || v.VList? || v.VMap? ==> r.Err?
    ensures v.VNum? ==> r == Ok(Truncate(v.n))
    ensures v.VStr? ==> r == IntOfText(v.s) && (r.Ok? ==> IsFloatText(v.s))
    ensures v.VBool? ==> r == Ok(if v.b then 1 else 0)
  {
    match v
    case VNull => Err("int() argument must be a string or a real number, not 'NoneType'")
    case VBool(b) => Ok(if b then 1 else 0)
    case VNum(n) => Ok(Truncate(n))
    case VStr(s) => IntTextIsFloatText(s); IntOfText(s)
    case VList(_) => Err("int() argument must be a string or a real number, not 'list'")
    case VMap(_) => Err("int() argument must be a string or a real number, not 'dict'")
  }

  /** `v == m` for an int `m`: numbers compare by value, booleans as 0 and 1, anything else is unequal. */
  predicate EqualsInt(v: Value, m: int)
  {
    match v
    case VNum(n) => n == m as real
    case VBool(b) => (if b then 1 else 0) == m
    case _ => false
  }

  /** `m in container` for an int `m`: list elements compare with `==`; mapping keys are strings. */
  function MonthIn(container: Value, m: int): (r: Result<bool>)
    ensures r.Ok? <==> container.VList? || container.VMap?
    ensures container.VList? ==> (r == Ok(true) <==> exists i :: 0 <= i < |container.items| && EqualsInt(container.items[i], m))
  {
    match container
    case VList(items) => Ok(exists i :: 0 <= i < |items| && EqualsInt(items[i], m))
    case VMap(_) => Ok(false)
    case _ => Err("argument is not iterable")
  }

  // ---------------------------------------------------------------------------
  // Deadline windows

  /**
   * Whether one product's schedule asks for the periodic notice today: monthly from seven
   * days before the deadline day, bi-annual likewise in a deadline month, annual from
   * twenty-eight days before the deadline day in the deadline month; any other frequency
   * never. An error is what the source raises (a schedule that is not a mapping, a
   * deadline day `int()` rejects, months that are not a container).
   */
  function ScheduleDue(schedule: Value, now: Date): (r: Result<bool>)
  {
    if !schedule.VMap? then Err("schedule has no attribute 'get'")
    else
      var freq := GetField(schedule, "frequency", VNull).value;
      var deadlineDay := GetField(schedule, "deadline_day", VNull).value;
      if freq == VStr("monthly") then
        match IntOf(deadlineDay)
        case Err(m) => Err(m)
        case Ok(d) => Ok(now.day >= d - 7)
      else if freq == VStr("bi-annual") then
        match MonthIn(GetField(schedule, "deadline_months", VList([])).value, now.month)
        case Err(m) => Err(m)
        case Ok(inMonth) =>
          if !inMonth then Ok(false)
          else match IntOf(deadlineDay)
            case Err(m) => Err(m)
            case Ok(d) => Ok(now.day >= d - 7)
      else if freq == VStr("annual") then
        if !EqualsInt(GetField(schedule, "deadline_month", VNull).value, now.month) then Ok(false)
        else match IntOf(deadlineDay)
          case Err(m) => Err(m)
          case Ok(d) => Ok(now.day >= d - 28)
      else Ok(false)
  }

  /** A list of month numbers as the configuration holds it. */
  function MonthList(months: seq<int>): (v: Value)
    ensures v.VList? && |v.items| == |months|
    ensures forall i :: 0 <= i < |months| ==> v.items[i] == VNum(months[i] as real)
  {
    VList(seq(|months|, i requires 0 <= i < |months| => VNum(months[i] as real)))
  }

  /** A schedule with the given fields, in this order. */
  function Schedule(freq: string, deadlineDay: int, months: seq<int>, month: int): Value
  {
    VMap([("frequency", VStr(freq)), ("deadline_day", VNum(deadlineDay as real)),
          ("deadline_months", MonthList(months)), ("deadline_month", VNum(month as real))])
  }

  /** The frequency and deadline day of a schedule built by `Schedule`, as the loop reads them. */
  lemma ScheduleFields(freq: string, deadlineDay: int, months: seq<int>, month: int)
    ensures var sch := Schedule(freq, deadlineDay, months, month);
      && GetField(sch, "frequency", VNull) == Ok(VStr(freq))
      && GetField(sch, "deadline_day", VNull) == Ok(VNum(deadlineDay as real))
      && IntOf(VNum(deadlineDay as real)) == Ok(deadlineDay)
  {
    TruncateWhole(deadlineDay);
    FindFirst(Schedule(freq, deadlineDay, months, month).entries, 1, "deadline_day");
  }

  /** The deadline months of a schedule built by `Schedule`. */
  lemma ScheduleMonthsField(freq: string, deadlineDay: int, months: seq<int>, month: int)
    ensures GetField(Schedule(freq, deadlineDay, months, month), "deadline_months", VList([])) == Ok(MonthList(months))
  {
    FindFirst(Schedule(freq, deadlineDay, months, month).entries, 2, "deadline_months");
  }

  /** The deadline month of a schedule built by `Schedule`. */
  lemma ScheduleMonthField(freq: string, deadlineDay: int, months: seq<int>, month: int)
    ensures GetField(Schedule(freq, deadlineDay, months, month), "deadline_month", VNull) == Ok(VNum(month as real))
  {
    FindFirst(Schedule(freq, deadlineDay, months, month).entries, 3, "deadline_month");
  }

  /** A month is in a list of month numbers exactly when it is one of them. */
  lemma MonthInList(months: seq<int>, m: int)
    ensures MonthIn(MonthList(months), m) == Ok(m in months)
  {
    var listed := MonthList(months);
    if m in months {
      var i :| 0 <= i < |months| && months[i] == m;
      assert EqualsInt(listed.items[i], m);
    }
    if exists i :: 0 <= i < |listed.items| && EqualsInt(listed.items[i], m) {
      var i :| 0 <= i < |listed.items| && EqualsInt(listed.items[i], m);
      assert months[i] == m;
    }
  }

  /** Monthly: due from seven days before the deadline day. */
  lemma MonthlyWindow(deadlineDay: int, months: seq<int>, month: int, now: Date)
    ensures ScheduleDue(Schedule("monthly", deadlineDay, months, month), now) == Ok(now.day >= deadlineDay - 7)
  {
    ScheduleFields("monthly", deadlineDay, months, month);
  }

  /** Bi-annual: due in a deadline month, from seven days before the deadline day. */
  lemma BiAnnualWindow(deadlineDay: int, months: seq<int>, month: int, now: Date)
    ensures ScheduleDue(Schedule("bi-annual", deadlineDay, months, month), now)
      == Ok(now.month in months && now.day >= deadlineDay - 7)
  {
    ScheduleFields("bi-annual", deadlineDay, months, month);
    ScheduleMonthsField("bi-annual", deadlineDay, months, month);
    MonthInList(months, now.month);
  }

  /** Annual: due in the deadline month, from twenty-eight days before the deadline day. */
  lemma AnnualWindow(deadlineDay: int, months: seq<int>, month: int, now: Date)
    ensures ScheduleDue(Schedule("annual", deadlineDay, months, month), now)
      == Ok(now.month == month && now.day >= deadlineDay - 28)
  {
    ScheduleFields("annual", deadlineDay, months, month);
    ScheduleMonthField("annual", deadlineDay, months, month);
  }

  /** Any other frequency is never due. */
  lemma OtherFrequencyNeverDue(freq: string, deadlineDay: int, months: seq<int>, month: int, now: Date)
    requires freq != "monthly" && freq != "bi-annual" && freq != "annual"
    ensures ScheduleDue(Schedule(freq, deadlineDay, months, month), now) == Ok(false)
  {
    ScheduleFields(freq, deadlineDay, months, month);
  }

  /** With no earlier entry under `k`, the lookup finds the entry at `i`. */
  lemma {:induction false} FindFirst(entries: seq<(string, Value)>, i: nat, k: string)
    requires i < |entries| && entries[i].0 == k
    requires forall j :: 0 <= j < i ==> entries[j].0 != k
    ensures Find(entries, k) == Some(entries[i].1)
  {
    if i > 0 {
      FindFirst(entries[1..], i - 1, k);
    }
  }

  /** A schedule that reaches `int()` with no deadline day makes the loop raise. */
  lemma MissingDeadlineDayFails(schedule: Value, now: Date)
    requires schedule.VMap? && Find(schedule.entries, "deadline_day").None?
    requires Find(schedule.entries, "frequency") == Some(VStr("monthly"))
    ensures ScheduleDue(schedule, now).Err?
  {
  }

  /**
   * The schedule loop: every product's schedule in order; the first error ends it,
   * otherwise the trigger is set once any schedule is due and never reset.
   */
  function PeriodicDue(entries: seq<(string, Value)>, now: Date): (r: Result<bool>)
  {
    if entries == [] then Ok(false)
    else
      var n := |entries| - 1;
      match PeriodicDue(entries[..n], now)
      case Err(m) => Err(m)
      case Ok(b) =>
        match ScheduleDue(entries[n].1, now)
        case Err(m) => Err(m)
        case Ok(c) => Ok(b || c)
  }

  /** `product_schedule.items()` and the loop over it; a schedule table that is not a mapping raises. */
  function PeriodicTrigger(productSchedule: Value, now: Date): Result<bool>
  {
    if productSchedule.VMap? then PeriodicDue(productSchedule.entries, now)
    else Err("product_schedule has no attribute 'items'")
  }

  /** The loop succeeds exactly when every schedule is well-formed, and then it is the OR of the windows. */
  lemma {:induction false} PeriodicDueIff(entries: seq<(string, Value)>, now: Date)
    ensures PeriodicDue(entries, now).Ok? <==> forall e :: e in entries ==> ScheduleDue(e.1, now).Ok?
    ensures PeriodicDue(entries, now).Ok? ==>
      (PeriodicDue(entries, now).value <==> exists e :: e in entries && ScheduleDue(e.1, now) == Ok(true))
  {
    if entries != [] {
      var n := |entries| - 1;
      PeriodicDueIff(entries[..n], now);
      assert entries == entries[..n] + [entries[n]];
    }
  }

  /** Schedule order changes neither whether the loop succeeds nor the trigger it computes. */
  lemma PeriodicOrderIndependent(a: seq<(string, Value)>, b: seq<(string, Value)>, now: Date)
    requires multiset(a) == multiset(b)
    ensures PeriodicDue(a, now).Ok? <==> PeriodicDue(b, now).Ok?
    ensures PeriodicDue(a, now).Ok? ==> PeriodicDue(a, now) == PeriodicDue(b, now)
  {
    PeriodicDueIff(a, now);
    PeriodicDueIff(b, now);
    forall x ensures x in a <==> x in b {
      assert x in a <==> x in multiset(a);
      assert x in b <==> x in multiset(b);
    }
  }

  /** Once a prefix of the loop has raised, the whole loop raises the same error. */
  lemma {:induction false} ErrorPersists(entries: seq<(string, Value)>, j: nat, now: Date)
    requires j <= |entries| && PeriodicDue(entries[..j], now).Err?
    ensures PeriodicDue(entries, now) == PeriodicDue(entries[..j], now)
  {
    if j < |entries| {
      var n := |entries| - 1;
      assert entries[..n][..j] == entries[..j];
      ErrorPersists(entries[..n], j, now);
    } else {
      assert entries[..j] == entries;
    }
  }

  /** The loop over the schedules, stopping at the first one that raises. */
  method ScanSchedules(entries: seq<(string, Value)>, now: Date) returns (r: Result<bool>)
    ensures r == PeriodicDue(entries, now)
  {
    var due := false;
    var j := 0;
    while j < |entries|
      invariant 0 <= j <= |entries|
      invariant PeriodicDue(entries[..j], now) == Ok(due)
    {
      assert entries[..j + 1][..j] == entries[..j];
      var one := ScheduleDue(entries[j].1, now);
      if one.Err? {
        ErrorPersists(entries, j + 1, now);
        return Err(one.message);
      }
      if one.value {
        due := true;
      }
      j := j + 1;
    }
    assert entries[..j] == entries;
    r := Ok(due);
  }

  // ---------------------------------------------------------------------------
  // One sheet: `run`

  datatype WorkflowStatus = CompletedWithIssues | CompletedSuccess | Failed

  datatype RunResult = RunResult(
    filePath: string,
    sheetName: Option<string>,
    validation: ValidationResult,
    notificationSent: bool,
    notificationType: Notifications.Kind,
    status: WorkflowStatus)

  /** The notification `run` asks for: missing data for an invalid sheet, completion otherwise. */
  function SheetNoticeFor(path: string, sheet: Option<string>, v: ValidationResult): (n: Notifications.Notice)
    ensures n.SheetNotice? && n.filePath == path && n.sheet == sheet
    ensures n.kind == Notifications.MissingData <==> !IsValid(v)
  {
    Notifications.SheetNotice(if IsValid(v) then Notifications.Completion else Notifications.MissingData, path, sheet)
  }

  /** What `run` returns once validation gave `v` and the notifier answered `sent`. */
  function RunOutcome(path: string, sheet: Option<string>, v: ValidationResult, sent: bool): (r: RunResult)
    ensures r.validation == v && r.notificationSent == sent
    ensures r.notificationType == SheetNoticeFor(path, sheet, v).kind
    ensures r.status == CompletedSuccess <==> IsValid(v)
    ensures r.status != Failed
  {
    RunResult(path, sheet, v, sent, SheetNoticeFor(path, sheet, v).kind,
              if IsValid(v) then CompletedSuccess else CompletedWithIssues)
  }

  // ---------------------------------------------------------------------------
  // A workbook: `run_all_sheets`

  datatype SheetSource = SheetSource(name: string, read: Result<Table>)

  /** The workbook as the loader sees it: its path, whether it exists, and its sheets or the reason listing them failed. */
  datatype Workbook = Workbook(path: string, fileExists: bool, sheets: Result<seq<SheetSource>>)

  /** A sheet's name with the outcome of validating it. */
  datatype SheetCheck = SheetCheck(name: string, validation: ValidationResult)

  /** An entry of the merged error list: the entry of one sheet's `errors`, tagged with the sheet. */
  datatype TaggedError = TaggedError(sheet: string, entry: ErrorEntry)

  /** A sheet's name with the outcome of `validate_spreadsheet` on it. */
  function SheetCheckOf(book: Workbook, src: SheetSource, s: Settings): SheetCheck
  {
    SheetCheck(src.name, Validate(book.path, book.fileExists, Some(src.name), src.read, s))
  }

  /** The sheets in order, each with the outcome of validating it. */
  function SheetChecks(book: Workbook, sheets: seq<SheetSource>, s: Settings): (r: seq<SheetCheck>)
    ensures |r| == |sheets|
  {
    if sheets == [] then []
    else SheetChecks(book, sheets[..|sheets| - 1], s) + [SheetCheckOf(book, sheets[|sheets| - 1], s)]
  }

  lemma {:induction false} SheetChecksAt(book: Workbook, sheets: seq<SheetSource>, s: Settings, i: nat)
    requires i < |sheets|
    ensures SheetChecks(book, sheets, s)[i] == SheetCheckOf(book, sheets[i], s)
  {
    if i < |sheets| - 1 {
      SheetChecksAt(book, sheets[..|sheets| - 1], s, i);
    }
  }

  function Names(cs: seq<SheetCheck>): (r: seq<string>)
    ensures |r| == |cs| && forall i :: 0 <= i < |cs| ==> r[i] == cs[i].name
  {
    seq(|cs|, i requires 0 <= i < |cs| => cs[i].name)
  }

  /** `all_valid`: every sheet validated and was valid. */
  predicate AllValid(cs: seq<SheetCheck>)
  {
    forall i :: 0 <= i < |cs| ==> IsValid(cs[i].validation)
  }

  /** The entries of `es`, each tagged with `sheet`. */
  function Tagged(sheet: string, es: seq<ErrorEntry>): (r: seq<TaggedError>)
    ensures |r| == |es| && forall j :: 0 <= j < |es| ==> r[j] == TaggedError(sheet, es[j])
  {
    seq(|es|, j requires 0 <= j < |es| => TaggedError(sheet, es[j]))
  }

  /** What a sheet adds to the merged list: nothing when valid, else its `errors`, tagged. */
  function SheetErrors(c: SheetCheck): seq<TaggedError>
  {
    if IsValid(c.validation) then [] else Tagged(c.name, Errors(c.validation))
  }

  /** The merged error list, sheet by sheet. */
  function MergedErrors(cs: seq<SheetCheck>): seq<TaggedError>
  {
    if cs == [] then [] else MergedErrors(cs[..|cs| - 1]) + SheetErrors(cs[|cs| - 1])
  }

  /** Number of merged entries tagged with `sheet`. */
  function CountTagged(errors: seq<TaggedError>, sheet: string): (r: nat)
    ensures r <= |errors|
  {
    if errors == [] then 0
    else CountTagged(errors[..|errors| - 1], sheet) + (if errors[|errors| - 1].sheet == sheet then 1 else 0)
  }

  /** `errors_by_sheet`, one count per sheet name, in sheet order. */
  function ErrorsBySheet(names: seq<string>, errors: seq<TaggedError>): (r: seq<nat>)
    ensures |r| == |names| && forall i :: 0 <= i < |names| ==> r[i] == CountTagged(errors, names[i])
  {
    seq(|names|, i requires 0 <= i < |names| => CountTagged(errors, names[i]))
  }

  datatype Aggregate = Aggregate(
    filePath: string,
    totalSheets: nat,
    isValid: bool,
    errors: seq<TaggedError>,
    sheetsProcessed: seq<string>,
    totalErrors: nat,
    errorsBySheet: seq<nat>,
    periodicTrigger: bool,
    message: AggregateText)

  /** Which of the two texts the aggregate block puts into `message`. */
  datatype AggregateText = IssuesFound | NoIssues

  /** The text itself, for the workbook at `path`. */
  function MessageText(path: string, m: AggregateText): string
  {
    match m
    case IssuesFound => "File '" + path + "' has missing/invalid data. Please check the attached summary."
    case NoIssues => "File '" + path + "' has no issues. All sheets validated successfully."
  }

  function AggregateMessage(issues: bool): AggregateText
  {
    if issues then IssuesFound else NoIssues
  }

  function AggregateOf(path: string, cs: seq<SheetCheck>, periodic: bool): Aggregate
  {
    var errors := MergedErrors(cs);
    Aggregate(path, |cs|, AllValid(cs), errors, Names(cs), |errors|, ErrorsBySheet(Names(cs), errors), periodic,
              AggregateMessage(!AllValid(cs) || periodic))
  }

  /** The one notification sent about the whole workbook. */
  function AggregateNotice(path: string, cs: seq<SheetCheck>, periodic: bool): (n: Notifications.Notice)
    ensures n.WorkbookNotice? && n.filePath == path
    ensures n.kind == Notifications.MissingData <==> !AllValid(cs) || periodic
  {
    var issues := !AllValid(cs) || periodic;
    Notifications.WorkbookNotice(if issues then Notifications.MissingData else Notifications.Completion, path)
  }

  datatype AllSheetsResult = AllSheetsResult(
    filePath: string,
    sheetResults: seq<(string, RunResult)>,
    aggregated: Option<Aggregate>,
    notificationSent: bool,
    notificationType: Option<Notifications.Kind>,
    status: WorkflowStatus,
    error: Option<string>)

  /** The per-sheet `run` results, keyed by sheet name, in sheet order. */
  function SheetRuns(path: string, cs: seq<SheetCheck>, sent: bool): (r: seq<(string, RunResult)>)
    ensures |r| == |cs|
    ensures forall i :: 0 <= i < |cs| ==> r[i] == (cs[i].name, RunOutcome(path, Some(cs[i].name), cs[i].validation, sent))
  {
    if cs == [] then []
    else
      var c := cs[|cs| - 1];
      SheetRuns(path, cs[..|cs| - 1], sent) + [(c.name, RunOutcome(path, Some(c.name), c.validation, sent))]
  }

  /** The notices the per-sheet runs request, in sheet order. */
  function SheetNotices(path: string, cs: seq<SheetCheck>): (r: seq<Notifications.Notice>)
    ensures |r| == |cs|
    ensures forall i :: 0 <= i < |cs| ==> r[i] == SheetNoticeFor(path, Some(cs[i].name), cs[i].validation)
  {
    if cs == [] then []
    else
      var c := cs[|cs| - 1];
      SheetNotices(path, cs[..|cs| - 1]) + [SheetNoticeFor(path, Some(c.name), c.validation)]
  }

  /** The result once the sheets were run and the schedule loop gave `due`. */
  function SheetsOutcome(path: string, cs: seq<SheetCheck>, due: Result<bool>, sent: bool): (r: AllSheetsResult)
    ensures |r.sheetResults| == |cs|
    ensures r.status == Failed <==> due.Err?
    ensures r.status == Failed <==> r.error.Some?
    ensures r.status == Failed ==> r.aggregated.None? && r.notificationType.None? && !r.notificationSent
    ensures r.status == CompletedSuccess <==> due == Ok(false) && AllValid(cs)
  {
    match due
    case Err(m) => AllSheetsResult(path, SheetRuns(path, cs, sent), None, false, None, Failed, Some(m))
    case Ok(p) =>
      AllSheetsResult(path, SheetRuns(path, cs, sent), Some(AggregateOf(path, cs, p)), sent,
                      Some(AggregateNotice(path, cs, p).kind),
                      if !AllValid(cs) || p then CompletedWithIssues else CompletedSuccess, None)
  }

  /** The aggregate notice, unless the schedule loop raised first. */
  function AggregateNotices(path: string, cs: seq<SheetCheck>, due: Result<bool>): seq<Notifications.Notice>
  {
    match due
    case Err(_) => []
    case Ok(p) => [AggregateNotice(path, cs, p)]
  }

  /** What `run_all_sheets` returns, given the settings, the schedule table, the transport and today. */
  function AllSheetsOutcome(s: Settings, schedule: Value, sent: bool, book: Workbook, now: Date): AllSheetsResult
  {
    match book.sheets
    case Err(m) => AllSheetsResult(book.path, [], None, false, None, Failed, Some(m))
    case Ok(sheets) => SheetsOutcome(book.path, SheetChecks(book, sheets, s), PeriodicTrigger(schedule, now), sent)
  }

  /** The notices `run_all_sheets` requests, in order. */
  function AllSheetsNotices(s: Settings, schedule: Value, book: Workbook, now: Date): seq<Notifications.Notice>
  {
    match book.sheets
    case Err(_) => []
    case Ok(sheets) =>
      var cs := SheetChecks(book, sheets, s);
      SheetNotices(book.path, cs) + AggregateNotices(book.path, cs, PeriodicTrigger(schedule, now))
  }

  lemma SheetRunsAppend(path: string, cs: seq<SheetCheck>, c: SheetCheck, sent: bool)
    ensures SheetRuns(path, cs + [c], sent) ==
      SheetRuns(path, cs, sent) + [(c.name, RunOutcome(path, Some(c.name), c.validation, sent))]
  {
    assert (cs + [c])[..|cs|] == cs;
  }

  lemma SheetNoticesAppend(path: string, cs: seq<SheetCheck>, c: SheetCheck)
    ensures SheetNotices(path, cs + [c]) == SheetNotices(path, cs) + [SheetNoticeFor(path, Some(c.name), c.validation)]
  {
    assert (cs + [c])[..|cs|] == cs;
  }

  lemma AppendAssoc<T>(a: seq<T>, b: seq<T>, c: seq<T>)
    ensures (a + b) + c == a + (b + c)
  {
  }

  lemma MergedErrorsAppend(cs: seq<SheetCheck>, c: SheetCheck)
    ensures MergedErrors(cs + [c]) == MergedErrors(cs) + SheetErrors(c)
  {
    assert (cs + [c])[..|cs|] == cs;
  }

  lemma AllValidAppend(cs: seq<SheetCheck>, c: SheetCheck)
    ensures AllValid(cs + [c]) <==> AllValid(cs) && IsValid(c.validation)
  {
    assert forall i :: 0 <= i < |cs| ==> (cs + [c])[i] == cs[i];
    assert (cs + [c])[|cs|] == c;
  }

  /** One sheet more: how the loop's four accumulators follow the specification. */
  lemma SheetStep(path: string, cs: seq<SheetCheck>, i: nat, c: SheetCheck, sent: bool,
                  runs: seq<(string, RunResult)>, allValid: bool, allErrors: seq<TaggedError>,
                  log0: seq<Notifications.Notice>, log: seq<Notifications.Notice>)
    requires i < |cs| && cs[i] == c
    requires runs == SheetRuns(path, cs[..i], sent)
    requires allValid == AllValid(cs[..i])
    requires allErrors == MergedErrors(cs[..i])
    requires log == log0 + SheetNotices(path, cs[..i])
    ensures cs[..i + 1] == cs[..i] + [c]
    ensures runs + [(c.name, RunOutcome(path, Some(c.name), c.validation, sent))] == SheetRuns(path, cs[..i + 1], sent)
    ensures (allValid && IsValid(c.validation)) == AllValid(cs[..i + 1])
    ensures allErrors + SheetErrors(c) == MergedErrors(cs[..i + 1])
    ensures log + [SheetNoticeFor(path, Some(c.name), c.validation)] == log0 + SheetNotices(path, cs[..i + 1])
  {
    assert cs[..i + 1] == cs[..i] + [c];
    SheetRunsAppend(path, cs[..i], c, sent);
    SheetNoticesAppend(path, cs[..i], c);
    MergedErrorsAppend(cs[..i], c);
    AllValidAppend(cs[..i], c);
    AppendAssoc(log0, SheetNotices(path, cs[..i]), [SheetNoticeFor(path, Some(c.name), c.validation)]);
  }

  /** The loop tagging each of a sheet's errors with the sheet's name. */
  method TagErrors(name: string, errors: seq<ErrorEntry>) returns (tagged: seq<TaggedError>)
    ensures tagged == Tagged(name, errors)
  {
    tagged := [];
    var k := 0;
    while k < |errors|
      invariant 0 <= k <= |errors|
      invariant tagged == Tagged(name, errors[..k])
    {
      tagged := tagged + [TaggedError(name, errors[k])];
      k := k + 1;
    }
    assert errors[..k] == errors;
  }

  /** The flag and error-list update `run_all_sheets` makes for one sheet. */
  method MergeSheet(allValid: bool, allErrors: seq<TaggedError>, c: SheetCheck)
    returns (allValid': bool, allErrors': seq<TaggedError>)
    ensures allValid' == (allValid && IsValid(c.validation))
    ensures allErrors' == allErrors + SheetErrors(c)
  {
    allValid', allErrors' := allValid, allErrors;
    if !IsValid(c.validation) {
      allValid' := false;
      var tagged := TagErrors(c.name, Errors(c.validation));
      allErrors' := allErrors + tagged;
    }
  }

  // ---------------------------------------------------------------------------
  // What `run_all_sheets` promises

  /**
   * A listed workbook gets one notice per sheet, in sheet order, and then, unless the
   * schedule loop raised, exactly one aggregate notice: missing data when some sheet is
   * not valid or the periodic trigger is set, completion otherwise.
   */
  lemma NoticesPerWorkbook(s: Settings, schedule: Value, book: Workbook, now: Date)
    requires book.sheets.Ok?
    ensures var ns := AllSheetsNotices(s, schedule, book, now);
      var n := |book.sheets.value|;
      var cs := SheetChecks(book, book.sheets.value, s);
      && |ns| == (if PeriodicTrigger(schedule, now).Ok? then n + 1 else n)
      && (forall i :: 0 <= i < n ==> ns[i] == SheetNoticeFor(book.path, Some(cs[i].name), cs[i].validation))
      && (PeriodicTrigger(schedule, now).Ok? ==>
            && ns[n].WorkbookNotice?
            && (ns[n].kind == Notifications.MissingData <==> !AllValid(cs) || PeriodicTrigger(schedule, now).value))
  {
  }

  /**
   * The workflow fails exactly when listing the sheets or the schedule loop raised; it
   * then records the error and sends no aggregate. It succeeds cleanly exactly when
   * every sheet is valid and no schedule is due.
   */
  lemma WorkbookStatus(s: Settings, schedule: Value, sent: bool, book: Workbook, now: Date)
    ensures var r := AllSheetsOutcome(s, schedule, sent, book, now);
      && (r.status == Failed <==> book.sheets.Err? || PeriodicTrigger(schedule, now).Err?)
      && (r.status == Failed <==> r.error.Some?)
      && (r.status == Failed ==> r.aggregated.None? && !r.notificationSent)
      && (r.status == CompletedSuccess <==>
            book.sheets.Ok? && PeriodicTrigger(schedule, now) == Ok(false) && AllValid(SheetChecks(book, book.sheets.value, s)))
  {
  }

  /** Every merged entry comes, tagged with its sheet, from the `errors` of an invalid sheet. */
  lemma {:induction false} MergedFromInvalidSheets(cs: seq<SheetCheck>)
    ensures forall e :: e in MergedErrors(cs) ==>
      exists k :: 0 <= k < |cs| && !IsValid(cs[k].validation) && e.sheet == cs[k].name && e.entry in Errors(cs[k].validation)
  {
    if cs != [] {
      var n := |cs| - 1;
      MergedFromInvalidSheets(cs[..n]);
      forall e | e in MergedErrors(cs)
        ensures exists k :: 0 <= k < |cs| && !IsValid(cs[k].validation) && e.sheet == cs[k].name && e.entry in Errors(cs[k].validation)
      {
        if e in MergedErrors(cs[..n]) {
          var k :| 0 <= k < n && !IsValid(cs[..n][k].validation) && e.sheet == cs[..n][k].name
            && e.entry in Errors(cs[..n][k].validation);
          assert cs[k] == cs[..n][k];
        } else {
          var j :| 0 <= j < |SheetErrors(cs[n])| && SheetErrors(cs[n])[j] == e;
          assert e.entry == Errors(cs[n].validation)[j];
        }
      }
    }
  }

  /**
   * Rows with status `missing` never reach the merged list: a merged row is always an
   * `invalid` one; the other entries are the errors of sheets that could not be read.
   */
  lemma MissingRowsNotMerged(book: Workbook, sheets: seq<SheetSource>, s: Settings)
    ensures forall e :: e in MergedErrors(SheetChecks(book, sheets, s)) && e.entry.RowError? ==>
      e.entry.row.status == Invalid
  {
    var cs := SheetChecks(book, sheets, s);
    MergedFromInvalidSheets(cs);
    forall e | e in MergedErrors(cs) && e.entry.RowError?
      ensures e.entry.row.status == Invalid
    {
      var k :| 0 <= k < |cs| && !IsValid(cs[k].validation) && e.sheet == cs[k].name && e.entry in Errors(cs[k].validation);
      SheetChecksAt(book, sheets, s, k);
      ErrorsAreInvalidRows(book.path, book.fileExists, Some(sheets[k].name), sheets[k].read, s);
    }
  }

  /** Counting tags over two lists is adding the counts. */
  lemma {:induction false} CountTaggedAppend(a: seq<TaggedError>, b: seq<TaggedError>, sheet: string)
    ensures CountTagged(a + b, sheet) == CountTagged(a, sheet) + CountTagged(b, sheet)
  {
    if b == [] {
      assert a + b == a;
    } else {
      var n := |b| - 1;
      assert (a + b)[..|a + b| - 1] == a + b[..n];
      CountTaggedAppend(a, b[..n], sheet);
    }
  }

  /** What one sheet adds to the count of a name: all its merged entries, or none. */
  lemma {:induction false} CountSheetErrors(c: SheetCheck, sheet: string)
    ensures CountTagged(SheetErrors(c), sheet) == if sheet == c.name then |SheetErrors(c)| else 0
  {
    if !IsValid(c.validation) {
      CountTaggedOf(c.name, Errors(c.validation), sheet);
    }
  }

  lemma {:induction false} CountTaggedOf(name: string, es: seq<ErrorEntry>, sheet: string)
    ensures CountTagged(Tagged(name, es), sheet) == if sheet == name then |es| else 0
  {
    if es != [] {
      var n := |es| - 1;
      assert Tagged(name, es)[..n] == Tagged(name, es[..n]);
      CountTaggedOf(name, es[..n], sheet);
    }
  }

  /** A name no sheet carries has no merged entries. */
  lemma {:induction false} CountOfAbsentName(cs: seq<SheetCheck>, sheet: string)
    requires forall k :: 0 <= k < |cs| ==> cs[k].name != sheet
    ensures CountTagged(MergedErrors(cs), sheet) == 0
  {
    if cs != [] {
      var n := |cs| - 1;
      CountOfAbsentName(cs[..n], sheet);
      CountTaggedAppend(MergedErrors(cs[..n]), SheetErrors(cs[n]), sheet);
      CountSheetErrors(cs[n], sheet);
    }
  }

  /** With distinct sheet names, `errors_by_sheet` adds up to `total_errors`. */
  lemma {:induction false} ErrorCountsAddUp(cs: seq<SheetCheck>)
    requires forall i, j :: 0 <= i < j < |cs| ==> cs[i].name != cs[j].name
    ensures Sum(ErrorsBySheet(Names(cs), MergedErrors(cs))) == |MergedErrors(cs)|
  {
    if cs != [] {
      var n := |cs| - 1;
      var init, c := cs[..n], cs[n];
      var before, added := MergedErrors(init), SheetErrors(c);
      var all := MergedErrors(cs);
      assert all == before + added;
      ErrorCountsAddUp(init);
      var counts := ErrorsBySheet(Names(cs), all);
      assert counts[..n] == ErrorsBySheet(Names(init), before) by {
        forall i | 0 <= i < n
          ensures counts[i] == ErrorsBySheet(Names(init), before)[i]
        {
          CountTaggedAppend(before, added, init[i].name);
          CountSheetErrors(c, init[i].name);
        }
      }
      CountTaggedAppend(before, added, c.name);
      CountOfAbsentName(init, c.name);
      CountSheetErrors(c, c.name);
    }
  }

  /** A table with one product triggers exactly when that product's schedule is due. */
  lemma OneProductTable(product: string, schedule: Value, now: Date)
    ensures PeriodicTrigger(VMap([(product, schedule)]), now) ==
      match ScheduleDue(schedule, now) case Err(m) => Err(m) case Ok(b) => Ok(b)
  {
    var entries := [(product, schedule)];
    assert entries[..0] == [];
    assert PeriodicDue(entries[..0], now) == Ok(false);
    assert entries[0].1 == schedule;
  }

  /**
   * The schedule table as written is always empty, so the periodic trigger never fires:
   * with a configured product whose schedule is due, the corrected table triggers and
   * the table as written does not.
   */
  lemma ProductScheduleIgnored(doc: Value, product: string, schedule: Value, now: Date)
    requires doc == VMap([("product_schedule", VMap([(product, schedule)]))])
    requires ScheduleDue(schedule, now) == Ok(true)
    ensures PeriodicTrigger(ProductSchedule(doc), now) == Ok(true)
    ensures PeriodicTrigger(ProductScheduleAsWritten(doc), now) == Ok(false)
  {
    OneProductTable(product, schedule, now);
  }

  /** A monthly product due on the 1st is due every day, so the as-written trigger misses it every day. */
  lemma MonthlyProductIgnored(now: Date)
    ensures var doc := VMap([("product_schedule", VMap([("p", Schedule("monthly", 1, [], 1))]))]);
      && PeriodicTrigger(ProductSchedule(doc), now) == Ok(true)
      && PeriodicTrigger(ProductScheduleAsWritten(doc), now) == Ok(false)
  {
    MonthlyWindow(1, [], 1, now);
    ProductScheduleIgnored(VMap([("product_schedule", VMap([("p", Schedule("monthly", 1, [], 1))]))]),
                           "p", Schedule("monthly", 1, [], 1), now);
  }

  class Workflow {
    /** The validator's settings, read from the `validation` section. */
    const settings: Settings
    /** The table of product schedules the workflow reads. */
    const productSchedule: Value
    const notifier: Notifications.Notifier

    /**
     * The validator reads its settings from the configuration's `validation` section and
     * its schedule table from the `product_schedule` entry; the notifier starts with an
     * empty log.
     */
    constructor(config: Config, accepts: bool)
      requires ReadSettings(SectionOrEmpty(config.data, "validation")).Some?
      ensures settings == ReadSettings(SectionOrEmpty(config.data, "validation")).value
      ensures productSchedule == ProductSchedule(config.data)
      ensures fresh(notifier) && notifier.accepts == accepts && notifier.log == []
    {
      var validation := config.ValidationConfig();
      settings := ReadSettings(validation).value;
      productSchedule := ProductSchedule(config.data);
      notifier := new Notifications.Notifier(accepts);
    }

    /** `run`: validate one sheet and request the notice its verdict calls for. */
    method Run(path: string, fileExists: bool, sheet: Option<string>, read: Result<Table>) returns (r: RunResult)
      modifies notifier
      ensures r == RunOutcome(path, sheet, Validate(path, fileExists, sheet, read, settings), notifier.accepts)
      ensures notifier.log == old(notifier.log) + [SheetNoticeFor(path, sheet, r.validation)]
    {
      var v := ValidateSpreadsheet(path, fileExists, sheet, read, settings);
      var sent: bool;
      var status: WorkflowStatus;
      var kind: Notifications.Kind;
      if !IsValid(v) {
        sent := notifier.SendMissingData(Notifications.SheetNotice(Notifications.MissingData, path, sheet));
        kind := Notifications.MissingData;
        status := CompletedWithIssues;
      } else {
        sent := notifier.SendCompletion(Notifications.SheetNotice(Notifications.Completion, path, sheet));
        kind := Notifications.Completion;
        status := CompletedSuccess;
      }
      r := RunResult(path, sheet, v, sent, kind, status);
    }

    /** One pass of the sheet loop: `run` on sheet `i`, then its verdict and errors join the accumulators. */
    method RunSheet(book: Workbook, sheets: seq<SheetSource>, i: nat, ghost cs: seq<SheetCheck>,
                    ghost log0: seq<Notifications.Notice>, runs: seq<(string, RunResult)>,
                    checks: seq<SheetCheck>, allValid: bool, allErrors: seq<TaggedError>)
      returns (runs': seq<(string, RunResult)>, checks': seq<SheetCheck>, allValid': bool, allErrors': seq<TaggedError>)
      requires i < |sheets| && cs == SheetChecks(book, sheets, settings)
      requires checks == cs[..i] && runs == SheetRuns(book.path, checks, notifier.accepts)
      requires allValid == AllValid(checks) && allErrors == MergedErrors(checks)
      requires notifier.log == log0 + SheetNotices(book.path, checks)
      modifies notifier
      ensures checks' == cs[..i + 1] && runs' == SheetRuns(book.path, checks', notifier.accepts)
      ensures allValid' == AllValid(checks') && allErrors' == MergedErrors(checks')
      ensures notifier.log == log0 + SheetNotices(book.path, checks')
    {
      var name := sheets[i].name;
      ghost var logBefore := notifier.log;
      var result := Run(book.path, book.fileExists, Some(name), sheets[i].read);
      var c := SheetCheck(name, result.validation);
      SheetChecksAt(book, sheets, settings, i);
      assert c == SheetCheckOf(book, sheets[i], settings);
      SheetStep(book.path, cs, i, c, notifier.accepts, runs, allValid, allErrors, log0, logBefore);
      runs' := runs + [(name, result)];
      allValid', allErrors' := MergeSheet(allValid, allErrors, c);
      checks' := checks + [c];
    }

    /** The loop over the sheets: `run` on each, the `all_valid` flag and the merged error list. */
    method RunSheets(book: Workbook, sheets: seq<SheetSource>)
      returns (runs: seq<(string, RunResult)>, checks: seq<SheetCheck>, allValid: bool, allErrors: seq<TaggedError>)
      modifies notifier
      ensures checks == SheetChecks(book, sheets, settings)
      ensures runs == SheetRuns(book.path, checks, notifier.accepts)
      ensures allValid == AllValid(checks) && allErrors == MergedErrors(checks)
      ensures notifier.log == old(notifier.log) + SheetNotices(book.path, checks)
    {
      ghost var log0 := notifier.log;
      ghost var cs := SheetChecks(book, sheets, settings);
      runs, checks, allErrors, allValid := [], [], [], true;
      var i := 0;
      while i < |sheets|
        invariant 0 <= i <= |sheets|
        invariant checks == cs[..i]
        invariant runs == SheetRuns(book.path, checks, notifier.accepts)
        invariant allValid == AllValid(checks)
        invariant allErrors == MergedErrors(checks)
        invariant notifier.log == log0 + SheetNotices(book.path, checks)
      {
        runs, checks, allValid, allErrors := RunSheet(book, sheets, i, cs, log0, runs, checks, allValid, allErrors);
        i := i + 1;
      }
      assert cs[..i] == cs;
    }

    /** The aggregate block: the workbook summary and the one notice it calls for. */
    method NotifyAggregate(path: string, runs: seq<(string, RunResult)>, checks: seq<SheetCheck>,
                           allValid: bool, allErrors: seq<TaggedError>, due: Result<bool>)
      returns (r: AllSheetsResult)
      requires runs == SheetRuns(path, checks, notifier.accepts)
      requires allValid == AllValid(checks) && allErrors == MergedErrors(checks)
      modifies notifier
      ensures r == SheetsOutcome(path, checks, due, notifier.accepts)
      ensures notifier.log == old(notifier.log) + AggregateNotices(path, checks, due)
    {
      if due.Err? {
        return AllSheetsResult(path, runs, None, false, None, Failed, Some(due.message));
      }
      var periodic := due.value;
      var names := Names(checks);
      var issues := !allValid || periodic;
      var aggregate := Aggregate(path, |checks|, allValid, allErrors, names, |allErrors|,
                                 ErrorsBySheet(names, allErrors), periodic, AggregateMessage(issues));
      assert aggregate == AggregateOf(path, checks, periodic);
      var sent: bool;
      var kind: Notifications.Kind;
      var status: WorkflowStatus;
      if issues {
        kind, status := Notifications.MissingData, CompletedWithIssues;
        sent := notifier.SendMissingData(Notifications.WorkbookNotice(kind, path));
      } else {
        kind, status := Notifications.Completion, CompletedSuccess;
        sent := notifier.SendCompletion(Notifications.WorkbookNotice(kind, path));
      }
      assert kind == AggregateNotice(path, checks, periodic).kind;
      assert status == if !AllValid(checks) || periodic then CompletedWithIssues else CompletedSuccess;
      r := AllSheetsResult(path, runs, Some(aggregate), sent, Some(kind), status, None);
    }

    /** `run_all_sheets`: every sheet through `run`, then the schedule loop and one aggregate notice. */
    method RunAllSheets(book: Workbook, now: Date) returns (r: AllSheetsResult)
      modifies notifier
      ensures r == AllSheetsOutcome(settings, productSchedule, notifier.accepts, book, now)
      ensures notifier.log == old(notifier.log) + AllSheetsNotices(settings, productSchedule, book, now)
    {
      if book.sheets.Err? {
        return AllSheetsResult(book.path, [], None, false, None, Failed, Some(book.sheets.message));
      }
      ghost var log0 := notifier.log;
      var runs, checks, allValid, allErrors := RunSheets(book, book.sheets.value);
      ghost var log1 := notifier.log;
      var due: Result<bool>;
      if productSchedule.VMap? {
        due := ScanSchedules(productSchedule.entries, now);
      } else {
        due := Err("product_schedule has no attribute 'items'");
      }
      r := NotifyAggregate(book.path, runs, checks, allValid, allErrors, due);
      AppendAssoc(log0, SheetNotices(book.path, checks), AggregateNotices(book.path, checks, due));
    }
  }
}
