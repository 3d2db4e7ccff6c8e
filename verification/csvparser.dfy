/** The CSV loader: header lookup, step columns, one data row to one solve,
    and the whole table to the list of valid solves.

    A row is the list of cell strings the CSV reader produced for one line.
    Reading `row[i]` outside the row yields `undefined` in the program; here
    that is `Cell(row, i) == None`. Date parsing (`new Date(text)`) is a
    parameter: it maps a cell's text to a timestamp, or to `None` for an
    invalid date. */
module CsvParser {
  import opened Common
  import opened Solves

  type Row = seq<string>

  /** The date reader `new Date(text).getTime()`; `None` is `NaN`. */
  type DateReader = string -> Option<int>

  /** `row[i]`: absent outside the row (including `i == -1`). */
  function Cell(row: Row, i: int): (r: Option<string>)
    ensures r.Some? <==> 0 <= i < |row|
    ensures r.Some? ==> r.value == row[i]
  {
    if 0 <= i < |row| then Some(row[i]) else None
  }

  /** A cell that is present and not the empty string. */
  predicate Truthy(c: Option<string>)
  {
    c.Some? && c.value != ""
  }

  /** `cell || fallback`. */
  function OrDefault(c: Option<string>, fallback: string): (r: string)
    ensures Truthy(c) ==> r == c.value
    ensures !Truthy(c) ==> r == fallback
  {
    if Truthy(c) then c.value else fallback
  }

  // ---------------------------------------------------------------------------
  // parseInt(text, 10)

  predicate IsDigit(c: char)
  {
    '0' <= c <= '9'
  }

  predicate AllDigits(s: string)
  {
    forall i :: 0 <= i < |s| ==> IsDigit(s[i])
  }

  /** The longest prefix of decimal digits. */
  function LeadingDigits(s: string): (r: string)
    ensures |r| <= |s| && r == s[..|r|]
    ensures AllDigits(r)
    ensures |r| < |s| ==> !IsDigit(s[|r|])
  {
    if |s| > 0 && IsDigit(s[0]) then [s[0]] + LeadingDigits(s[1..]) else []
  }

  /** The value of a string of decimal digits, most significant first. */
  function DigitsValue(ds: string): nat
    requires AllDigits(ds)
  {
    if |ds| == 0 then 0
    else DigitsValue(ds[..|ds| - 1]) * 10 + (ds[|ds| - 1] as int - '0' as int)
  }

  /** `parseInt(text, 10)`: skip leading white space, take an optional sign
      and then the longest run of digits; `None` (`NaN`) when there is no
      digit. Whatever follows the digits is ignored. */
  function ParseInt(s: string): (r: Option<int>)
    ensures r.None? <==> |LeadingDigits(Unsigned(TrimStart(s)))| == 0
  {
    var t := TrimStart(s);
    var negative := |t| > 0 && t[0] == '-';
    var ds := LeadingDigits(Unsigned(t));
    if |ds| == 0 then None
    else if negative then Some(-(DigitsValue(ds) as int))
    else Some(DigitsValue(ds))
  }

  /** The text after an optional leading sign. */
  function Unsigned(t: string): (r: string)
    ensures r == t || (|t| > 0 && (t[0] == '-' || t[0] == '+') && r == t[1..])
  {
    if |t| > 0 && (t[0] == '-' || t[0] == '+') then t[1..] else t
  }

  /** `parseInt` of a cell: `parseInt(undefined)` is `NaN`. */
  function ParseIntCell(c: Option<string>): (r: Option<int>)
    ensures c.None? ==> r.None?
    ensures c.Some? ==> r == ParseInt(c.value)
  {
    if c.None? then None else ParseInt(c.value)
  }

  lemma {:induction false} DigitsValueOfNat(n: nat)
    ensures AllDigits(NatToString(n))
    ensures DigitsValue(NatToString(n)) == n
    decreases n
  {
    var s := NatToString(n);
    if n >= 10 {
      DigitsValueOfNat(n / 10);
      var p := NatToString(n / 10);
      assert s == p + [DigitChar(n % 10)];
      assert s[..|s| - 1] == p;
    }
  }

  lemma LeadingDigitsOfDigits(s: string)
    requires AllDigits(s)
    ensures LeadingDigits(s) == s
  {
  }

  /** Reading back the decimal text of a number gives the number. */
  lemma ParseIntRoundTrip(n: nat)
    ensures ParseInt(NatToString(n)) == Some(n)
  {
    DigitsValueOfNat(n);
    ParseIntDigits(NatToString(n));
  }

  /** A non-empty run of digits reads as its value. */
  lemma ParseIntDigits(s: string)
    requires |s| > 0 && AllDigits(s)
    ensures ParseInt(s) == Some(DigitsValue(s))
  {
    LeadingDigitsOfDigits(s);
    DigitTextUnchanged(s);
  }

  /** The same run after a minus sign reads as the negated value. */
  lemma ParseIntNegated(s: string)
    requires |s| > 0 && AllDigits(s)
    ensures ParseInt("-" + s) == Some(-(DigitsValue(s) as int))
  {
    LeadingDigitsOfDigits(s);
    SignedTextUnchanged(s);
    var m := "-" + s;
    assert m[0] == '-';
  }

  /** Text starting with a digit has no white space or sign to skip. */
  lemma DigitTextUnchanged(s: string)
    requires |s| > 0 && IsDigit(s[0])
    ensures TrimStart(s) == s && Unsigned(s) == s
  {
    assert !IsSpace(s[0]);
  }

  lemma SignedTextUnchanged(s: string)
    ensures TrimStart("-" + s) == "-" + s && Unsigned("-" + s) == s
  {
    var m := "-" + s;
    assert !IsSpace(m[0]);
    assert m[1..] == s;
  }

  /** Blank text and text without digits are not numbers. */
  lemma ParseIntRejects(s: string)
    requires forall i :: 0 <= i < |s| ==> !IsDigit(s[i])
    ensures ParseInt(s) == None
  {
  }

  // ---------------------------------------------------------------------------
  // Headers

  /** `String(h).trim().toLowerCase()`. */
  function Normalize(h: string): string
  {
    Lower(Trim(h))
  }

  function NormalizeHeaders(hs: seq<string>): (r: seq<string>)
    ensures |r| == |hs|
    ensures forall i :: 0 <= i < |hs| ==> r[i] == Normalize(hs[i])
  {
    seq(|hs|, i requires 0 <= i < |hs| => Normalize(hs[i]))
  }

  /** `k` is what `headers.indexOf(key)` answers: the first position holding
      `key`, or -1 when there is none. */
  predicate Locates(headers: seq<string>, key: string, k: int)
  {
    (k == -1 && key !in headers)
    || (0 <= k < |headers| && headers[k] == key && key !in headers[..k])
  }

  function IndexOf(xs: seq<string>, x: string): (r: int)
    ensures Locates(xs, x, r)
  {
    if |xs| == 0 then -1
    else if xs[0] == x then 0
    else
      var k := IndexOf(xs[1..], x);
      assert xs == [xs[0]] + xs[1..];
      if k == -1 then -1
      else
        assert xs[..k + 1] == [xs[0]] + xs[1..][..k];
        k + 1
  }

  /** The four `step_<i>_*` columns of one step. */
  datatype StepColumns = StepColumns(name: int, time: int, recognition: int, execution: int)

  /** The columns the loader reads. `actualTime` is `time` if present, else
      `timer_time`; `session` is `session_name` if present, else `session`. */
  datatype HeaderIndices = HeaderIndices(
    actualTime: int,
    date: int,
    faceTurns: int,
    scramble: int,
    dnf: int,
    id: int,
    totalRecogTime: int,
    totalExecTime: int,
    session: int,
    steps: seq<StepColumns>)

  /** At most this many `step_<i>_*` groups are looked for. */
  const MaxStepsToParse: nat := 9

  function StepHeader(i: nat, field: string): string
  {
    "step_" + NatToString(i) + "_" + field
  }

  /** `indexOf(first)` if it finds `first`, otherwise `indexOf(second)`. */
  function PreferredIndex(headers: seq<string>, first: string, second: string): (r: int)
    ensures first in headers ==> Locates(headers, first, r)
    ensures first !in headers ==> Locates(headers, second, r)
  {
    var k := IndexOf(headers, first);
    if k != -1 then k else IndexOf(headers, second)
  }

  function GetHeaderIndices(headers: seq<string>): (r: HeaderIndices)
    ensures r.actualTime == -1 <==> "time" !in headers && "timer_time" !in headers
    ensures "time" in headers ==> Locates(headers, "time", r.actualTime)
    ensures "time" !in headers ==> Locates(headers, "timer_time", r.actualTime)
    ensures Locates(headers, "date", r.date)
    ensures Locates(headers, "face_turns", r.faceTurns)
    ensures Locates(headers, "scramble", r.scramble)
    ensures Locates(headers, "dnf", r.dnf)
    ensures Locates(headers, "id", r.id)
    ensures Locates(headers, "total_recognition_time", r.totalRecogTime)
    ensures Locates(headers, "total_execution_time", r.totalExecTime)
    ensures "session_name" in headers ==> Locates(headers, "session_name", r.session)
    ensures "session_name" !in headers ==> Locates(headers, "session", r.session)
    ensures |r.steps| == MaxStepsToParse
    ensures forall i :: 0 <= i < |r.steps| ==>
              && Locates(headers, StepHeader(i, "name"), r.steps[i].name)
              && Locates(headers, StepHeader(i, "time"), r.steps[i].time)
              && Locates(headers, StepHeader(i, "recognition_time"), r.steps[i].recognition)
              && Locates(headers, StepHeader(i, "execution_time"), r.steps[i].execution)
  {
    HeaderIndices(
      PreferredIndex(headers, "time", "timer_time"),
      IndexOf(headers, "date"),
      IndexOf(headers, "face_turns"),
      IndexOf(headers, "scramble"),
      IndexOf(headers, "dnf"),
      IndexOf(headers, "id"),
      IndexOf(headers, "total_recognition_time"),
      IndexOf(headers, "total_execution_time"),
      PreferredIndex(headers, "session_name", "session"),
      seq(MaxStepsToParse, i requires 0 <= i < MaxStepsToParse =>
        StepColumns(
          IndexOf(headers, StepHeader(i, "name")),
          IndexOf(headers, StepHeader(i, "time")),
          IndexOf(headers, StepHeader(i, "recognition_time")),
          IndexOf(headers, StepHeader(i, "execution_time")))))
  }

  // ---------------------------------------------------------------------------
  // Step columns of one row

  datatype StepData = StepData(steps: seq<Step>, calculatedTotalRecog: int)

  /** Total of the recognition times the steps carry. */
  function RecognitionSum(steps: seq<Step>): int
  {
    if |steps| == 0 then 0
    else
      (if steps[0].recognitionTime.Some? then steps[0].recognitionTime.value else 0)
      + RecognitionSum(steps[1..])
  }

  predicate NoColumns(c: StepColumns)
  {
    c.name == -1 && c.time == -1 && c.recognition == -1 && c.execution == -1
  }

  /** One step from a row whose name and time cells are both non-empty:
      absent when the time is not a number. A missing execution time is
      derived as `max(0, time - recognition)` when the recognition time is
      known. */
  function StepOf(row: Row, c: StepColumns): (r: Option<Step>)
    requires Truthy(Cell(row, c.name)) && Truthy(Cell(row, c.time))
    ensures r.None? <==> ParseIntCell(Cell(row, c.time)).None?
    ensures r.Some? ==> r.value.name == row[c.name] && r.value.name != ""
    ensures r.Some? ==> r.value.recognitionTime == ParseIntCell(Cell(row, c.recognition))
    ensures r.Some? && ParseIntCell(Cell(row, c.execution)).Some? ==>
              r.value.executionTime == ParseIntCell(Cell(row, c.execution))
    ensures r.Some? && ParseIntCell(Cell(row, c.execution)).None? ==>
              r.value.executionTime ==
                if r.value.recognitionTime.Some? then Some(Max0(r.value.time - r.value.recognitionTime.value))
                else None
  {
    var time := ParseIntCell(Cell(row, c.time));
    if time.None? then None
    else
      var recognition := ParseIntCell(Cell(row, c.recognition));
      var execution := ParseIntCell(Cell(row, c.execution));
      var execution' :=
        if execution.None? && recognition.Some? then Some(Max0(time.value - recognition.value))
        else execution;
      Some(Step(row[c.name], time.value, recognition, execution'))
  }

  /** The step loop from group `i` on. A group is parsed when its name and
      time cells are non-empty; the loop stops at the first group after the
      first one that has none of its four columns. */
  function ScanSteps(row: Row, cols: seq<StepColumns>, i: nat): (r: StepData)
    requires i <= |cols|
    ensures |r.steps| <= |cols| - i
    ensures r.calculatedTotalRecog == RecognitionSum(r.steps)
    ensures forall k :: 0 <= k < |r.steps| ==> r.steps[k].name != ""
    decreases |cols| - i
  {
    if i == |cols| then StepData([], 0)
    else
      var c := cols[i];
      if Truthy(Cell(row, c.name)) && Truthy(Cell(row, c.time)) then
        var rest := ScanSteps(row, cols, i + 1);
        match StepOf(row, c)
        case None => rest
        case Some(s) =>
          var recognition := if s.recognitionTime.Some? then s.recognitionTime.value else 0;
          assert ([s] + rest.steps)[1..] == rest.steps;
          StepData([s] + rest.steps, recognition + rest.calculatedTotalRecog)
      else if NoColumns(c) && i > 0 then StepData([], 0)
      else ScanSteps(row, cols, i + 1)
  }

  function ParseStepData(row: Row, cols: seq<StepColumns>): StepData
  {
    ScanSteps(row, cols, 0)
  }

  /** A group without columns after the first one ends the scan: groups after
      it are never read, whatever their cells hold. */
  lemma {:induction false} GapEndsScan(row: Row, cols: seq<StepColumns>, i: nat, g: nat)
    requires i <= g < |cols| && 0 < g && NoColumns(cols[g])
    ensures ScanSteps(row, cols, i) == ScanSteps(row, cols[..g + 1], i)
    decreases g - i
  {
    var c := cols[i];
    var cols' := cols[..g + 1];
    assert cols'[i] == c;
    if i < g {
      GapEndsScan(row, cols, i + 1, g);
    } else {
      assert !Truthy(Cell(row, c.name));
    }
  }

  // ---------------------------------------------------------------------------
  // One data row

  /** Every cell empty. */
  predicate AllBlank(row: Row)
  {
    forall i :: 0 <= i < |row| ==> row[i] == ""
  }

  /** `String(cell).toLowerCase() === 'true'`; an absent cell reads as
      `"undefined"` and a missing column as `"false"`. */
  predicate IsTrueCell(c: Option<string>)
  {
    c.Some? && Lower(c.value) == "true"
  }

  /** `parseSolveRow`: `None` for an empty or blank row, an unparsable time or
      an invalid date; otherwise the solve with its defaults filled in. */
  function ParseSolveRow(row: Row, ix: HeaderIndices, index: nat, readDate: DateReader): Option<Solve>
  {
    if |row| == 0 || AllBlank(row) then None
    else
      var time := ParseIntCell(Cell(row, ix.actualTime));
      var dateCell := Cell(row, ix.date);
      var date := if dateCell.None? then None else readDate(dateCell.value);
      if time.None? then None
      else if date.None? then None
      else
        var faceTurns := ParseIntCell(Cell(row, ix.faceTurns));
        var dnf := IsTrueCell(Cell(row, ix.dnf));
        var scramble := OrDefault(Cell(row, ix.scramble), "N/A");
        var id := OrDefault(Cell(row, ix.id), "gen_" + NatToString(index));
        var session := OrDefault(Cell(row, ix.session), "Default");
        var stepData := ParseStepData(row, ix.steps);
        var totalRecog := ParseIntCell(Cell(row, ix.totalRecogTime));
        var totalRecognitionTime :=
          if totalRecog.None? then stepData.calculatedTotalRecog else totalRecog.value;
        var totalExec := ParseIntCell(Cell(row, ix.totalExecTime));
        var totalExecutionTime :=
          if totalExec.None? && !dnf then Some(Max0(time.value - totalRecognitionTime)) else totalExec;
        Some(Solve(id, date.value, time.value, faceTurns, scramble, dnf,
                   totalRecognitionTime, totalExecutionTime, stepData.steps, Some(session)))
  }

  /** The rejection cases, and the time, date and DNF flag of a kept row. */
  lemma ParseSolveRowRejects(row: Row, ix: HeaderIndices, index: nat, readDate: DateReader)
    ensures var r := ParseSolveRow(row, ix, index, readDate);
            r.None? <==>
              || |row| == 0 || AllBlank(row)
              || ParseIntCell(Cell(row, ix.actualTime)).None?
              || Cell(row, ix.date).None? || readDate(Cell(row, ix.date).value).None?
    ensures var r := ParseSolveRow(row, ix, index, readDate);
            r.Some? ==>
              && r.value.time == ParseIntCell(Cell(row, ix.actualTime)).value
              && r.value.date == readDate(row[ix.date]).value
              && (r.value.dnf <==> IsTrueCell(Cell(row, ix.dnf)))
  {
  }

  /** The id, session and scramble of a kept row, with their defaults. */
  lemma ParseSolveRowDefaults(row: Row, ix: HeaderIndices, index: nat, readDate: DateReader)
    ensures var r := ParseSolveRow(row, ix, index, readDate);
            r.Some? ==>
              && r.value.session.Some? && r.value.session.value != ""
              && r.value.id != "" && r.value.scramble != ""
              && |r.value.steps| <= |ix.steps|
    ensures var r := ParseSolveRow(row, ix, index, readDate);
            r.Some? ==>
              && r.value.id == OrDefault(Cell(row, ix.id), "gen_" + NatToString(index))
              && r.value.session == Some(OrDefault(Cell(row, ix.session), "Default"))
              && r.value.scramble == OrDefault(Cell(row, ix.scramble), "N/A")
  {
  }

  /** The recognition and execution totals of a kept row. */
  lemma ParseSolveRowTotals(row: Row, ix: HeaderIndices, index: nat, readDate: DateReader)
    ensures var r := ParseSolveRow(row, ix, index, readDate);
            r.Some? && !r.value.dnf ==> r.value.totalExecutionTime.Some?
    ensures var r := ParseSolveRow(row, ix, index, readDate);
            r.Some? && !r.value.dnf && ParseIntCell(Cell(row, ix.totalExecTime)).None? ==>
              r.value.totalExecutionTime == Some(Max0(r.value.time - r.value.totalRecognitionTime))
    ensures var r := ParseSolveRow(row, ix, index, readDate);
            r.Some? && ParseIntCell(Cell(row, ix.totalExecTime)).Some? ==>
              r.value.totalExecutionTime == ParseIntCell(Cell(row, ix.totalExecTime))
    ensures var r := ParseSolveRow(row, ix, index, readDate);
            r.Some? && ParseIntCell(Cell(row, ix.totalRecogTime)).None? ==>
              r.value.totalRecognitionTime == RecognitionSum(r.value.steps)
    ensures var r := ParseSolveRow(row, ix, index, readDate);
            r.Some? && ParseIntCell(Cell(row, ix.totalRecogTime)).Some? ==>
              r.value.totalRecognitionTime == ParseIntCell(Cell(row, ix.totalRecogTime)).value
  {
  }

  /** What a parsed row promises: the rejection cases, the time, date and DNF
      flag read from their cells, the defaults for the id (`gen_<index>`),
      session ("Default") and scramble ("N/A"), and the execution total
      derived as `max(0, time - recognition)` for a finished solve whose
      cell does not parse. */
  lemma ParseSolveRowSpec(row: Row, ix: HeaderIndices, index: nat, readDate: DateReader)
    ensures var r := ParseSolveRow(row, ix, index, readDate);
            r.None? <==>
              || |row| == 0 || AllBlank(row)
              || ParseIntCell(Cell(row, ix.actualTime)).None?
              || Cell(row, ix.date).None? || readDate(Cell(row, ix.date).value).None?
    ensures var r := ParseSolveRow(row, ix, index, readDate);
            r.Some? ==>
              && r.value.time == ParseIntCell(Cell(row, ix.actualTime)).value
              && r.value.date == readDate(row[ix.date]).value
              && (r.value.dnf <==> IsTrueCell(Cell(row, ix.dnf)))
    ensures var r := ParseSolveRow(row, ix, index, readDate);
            r.Some? ==>
              && r.value.session.Some? && r.value.session.value != ""
              && r.value.id != "" && r.value.scramble != ""
              && |r.value.steps| <= |ix.steps|
    ensures var r := ParseSolveRow(row, ix, index, readDate);
            r.Some? ==>
              && r.value.id == OrDefault(Cell(row, ix.id), "gen_" + NatToString(index))
              && r.value.session == Some(OrDefault(Cell(row, ix.session), "Default"))
              && r.value.scramble == OrDefault(Cell(row, ix.scramble), "N/A")
    ensures var r := ParseSolveRow(row, ix, index, readDate);
            r.Some? && !r.value.dnf ==> r.value.totalExecutionTime.Some?
    ensures var r := ParseSolveRow(row, ix, index, readDate);
            r.Some? && !r.value.dnf && ParseIntCell(Cell(row, ix.totalExecTime)).None? ==>
              r.value.totalExecutionTime == Some(Max0(r.value.time - r.value.totalRecognitionTime))
    ensures var r := ParseSolveRow(row, ix, index, readDate);
            r.Some? && ParseIntCell(Cell(row, ix.totalExecTime)).Some? ==>
              r.value.totalExecutionTime == ParseIntCell(Cell(row, ix.totalExecTime))
    ensures var r := ParseSolveRow(row, ix, index, readDate);
            r.Some? && ParseIntCell(Cell(row, ix.totalRecogTime)).None? ==>
              r.value.totalRecognitionTime == RecognitionSum(r.value.steps)
    ensures var r := ParseSolveRow(row, ix, index, readDate);
            r.Some? && ParseIntCell(Cell(row, ix.totalRecogTime)).Some? ==>
              r.value.totalRecognitionTime == ParseIntCell(Cell(row, ix.totalRecogTime)).value
  {
    ParseSolveRowRejects(row, ix, index, readDate);
    ParseSolveRowDefaults(row, ix, index, readDate);
    ParseSolveRowTotals(row, ix, index, readDate);
  }

  /** Different numbers have different decimal texts. */
  lemma NatToStringInjective(a: nat, b: nat)
    ensures NatToString(a) == NatToString(b) ==> a == b
  {
    ParseIntRoundTrip(a);
    ParseIntRoundTrip(b);
  }

  /** A row without an id cell gets `gen_<index>`, so generated ids of two
      different rows differ. */
  lemma GeneratedIdsDistinct(a: nat, b: nat)
    ensures "gen_" + NatToString(a) == "gen_" + NatToString(b) ==> a == b
  {
    NatToStringInjective(a, b);
    assert ("gen_" + NatToString(a))[4..] == NatToString(a);
    assert ("gen_" + NatToString(b))[4..] == NatToString(b);
  }

  /** Two parsed rows at different positions that both lack an id cell get
      different ids. */
  lemma ParsedIdsDistinct(rowA: Row, rowB: Row, ix: HeaderIndices, a: nat, b: nat, readDate: DateReader)
    requires a != b && !Truthy(Cell(rowA, ix.id)) && !Truthy(Cell(rowB, ix.id))
    ensures ParseSolveRow(rowA, ix, a, readDate).Some? && ParseSolveRow(rowB, ix, b, readDate).Some? ==>
              ParseSolveRow(rowA, ix, a, readDate).value.id != ParseSolveRow(rowB, ix, b, readDate).value.id
  {
    ParseSolveRowSpec(rowA, ix, a, readDate);
    ParseSolveRowSpec(rowB, ix, b, readDate);
    GeneratedIdsDistinct(a, b);
  }

  // ---------------------------------------------------------------------------
  // The whole table

  /** Each data row parsed with its own position (its 0-based index among
      the data rows). */
  function RowResults(rows: seq<Row>, ix: HeaderIndices, readDate: DateReader): (r: seq<Option<Solve>>)
    ensures |r| == |rows|
    ensures forall j :: 0 <= j < |rows| ==> r[j] == ParseSolveRow(rows[j], ix, j, readDate)
  {
    seq(|rows|, j requires 0 <= j < |rows| => ParseSolveRow(rows[j], ix, j, readDate))
  }

  /** `processSolves`: nothing without a data row or without the time or date
      column; otherwise the valid solves of the data rows, in row order. */
  method ProcessSolves(raw: seq<Row>, readDate: DateReader) returns (r: seq<Solve>)
    ensures |raw| < 2 ==> r == []
    ensures |raw| >= 2 && GetHeaderIndices(NormalizeHeaders(raw[0])).actualTime == -1 ==> r == []
    ensures |raw| >= 2 && GetHeaderIndices(NormalizeHeaders(raw[0])).date == -1 ==> r == []
    ensures |raw| >= 2 && GetHeaderIndices(NormalizeHeaders(raw[0])).actualTime != -1
            && GetHeaderIndices(NormalizeHeaders(raw[0])).date != -1 ==>
              r == Somes(RowResults(raw[1..], GetHeaderIndices(NormalizeHeaders(raw[0])), readDate))
    ensures |r| <= |raw|
  {
    if |raw| < 2 {
      return [];
    }
    var headers := NormalizeHeaders(raw[0]);
    var dataRows := raw[1..];
    var ix := GetHeaderIndices(headers);
    if ix.actualTime == -1 || ix.date == -1 {
      return [];
    }
    r := ParseRows(dataRows, ix, readDate);
  }

  /** The batch loop over the data rows: batches of 500 rows, in order. */
  method ParseRows(rows: seq<Row>, ix: HeaderIndices, readDate: DateReader) returns (r: seq<Solve>)
    ensures r == Somes(RowResults(rows, ix, readDate))
  {
    var results := RowResults(rows, ix, readDate);
    var n := |rows|;
    var totalBatches := (n + 499) / 500;
    r := [];
    var batch := 0;
    var done := 0;
    while batch < totalBatches
      invariant 0 <= batch <= totalBatches && done <= n
      invariant batch < totalBatches ==> done == batch * 500
      invariant batch == totalBatches ==> done == n
      invariant r == Somes(results[..done])
    {
      BatchCount(n, batch);
      var start := batch * 500;
      var end := if start + 500 < n then start + 500 else n;
      r := KeepPresent(results, start, end, r);
      BatchCount(n, batch + 1);
      batch := batch + 1;
      done := end;
    }
    BatchCount(n, 0);
    TakeAll(results, n);
  }

  /** Batch `b` starts inside the rows exactly when `b` is below
      `ceil(n / 500)`. */
  lemma BatchCount(n: nat, b: nat)
    ensures b < (n + 499) / 500 <==> b * 500 < n
  {
    var q := (n + 499) / 500;
    var rem := (n + 499) % 500;
    assert n + 499 == q * 500 + rem;
    if b < q {
      assert b * 500 <= (q - 1) * 500;
    } else {
      assert b * 500 >= q * 500;
    }
  }

  /** One batch: the results of rows `start .. end-1`, the present ones
      appended in order to `acc`. */
  method KeepPresent<T>(results: seq<Option<T>>, start: nat, end: nat, acc: seq<T>) returns (r: seq<T>)
    requires start <= end <= |results|
    requires acc == Somes(results[..start])
    ensures r == Somes(results[..end])
  {
    r := acc;
    var i := start;
    while i < end
      invariant start <= i <= end
      invariant r == Somes(results[..i])
    {
      SomesStep(results, i);
      if results[i].Some? {
        r := r + [results[i].value];
      }
      i := i + 1;
    }
  }
}
