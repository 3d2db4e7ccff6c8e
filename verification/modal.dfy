/** The detail modals: the per-phase execution breakdown of one solve, the
    window of attempts behind an average record and the sorting of that
    window's table, and the back-navigation stack between the two
    modals. */
module Modal {
  import opened Common
  import opened Solves
  import opened Averages
  import opened Table

  // ---------------------------------------------------------------------------
  // Execution time per phase

  /** The five buckets of the pie chart, in chart order. */
  datatype Bucket = Cross | F2l | Oll | Pll | Other

  /** The first phase name contained in the lower-cased step name. */
  function BucketOf(name: string): Bucket
  {
    var lower := Lower(name);
    if Contains(lower, "cross") then Cross
    else if Contains(lower, "f2l") then F2l
    else if Contains(lower, "oll") then Oll
    else if Contains(lower, "pll") then Pll
    else Other
  }

  /** A missing execution time counts as 0. */
  function ExecTime(step: Step): int
  {
    if step.executionTime.Some? then step.executionTime.value else 0
  }

  datatype Aggregated = Aggregated(cross: int, f2l: int, oll: int, pll: int, other: int, total: int)

  function Get(a: Aggregated, b: Bucket): int
  {
    match b
    case Cross => a.cross
    case F2l => a.f2l
    case Oll => a.oll
    case Pll => a.pll
    case Other => a.other
  }

  function AddTo(a: Aggregated, b: Bucket, t: int): Aggregated
  {
    match b
    case Cross => a.(cross := a.cross + t, total := a.total + t)
    case F2l => a.(f2l := a.f2l + t, total := a.total + t)
    case Oll => a.(oll := a.oll + t, total := a.total + t)
    case Pll => a.(pll := a.pll + t, total := a.total + t)
    case Other => a.(other := a.other + t, total := a.total + t)
  }

  /** `aggregateStepExecutionTimes`: steps with a positive execution time
      add it to their bucket and to the total. */
  function AggregateStepExecutionTimes(steps: seq<Step>): (r: Aggregated)
    ensures r.total == r.cross + r.f2l + r.oll + r.pll + r.other
    ensures r.cross >= 0 && r.f2l >= 0 && r.oll >= 0 && r.pll >= 0 && r.other >= 0
  {
    if |steps| == 0 then Aggregated(0, 0, 0, 0, 0, 0)
    else
      var a := AggregateStepExecutionTimes(steps[..|steps| - 1]);
      var st := steps[|steps| - 1];
      var t := ExecTime(st);
      if t <= 0 then a else AddTo(a, BucketOf(st.name), t)
  }

  /** Reference: the positive execution times of the steps falling in a
      bucket, in order. */
  function BucketTimes(steps: seq<Step>, b: Bucket): seq<int>
  {
    if |steps| == 0 then []
    else
      var st := steps[|steps| - 1];
      BucketTimes(steps[..|steps| - 1], b)
        + (if ExecTime(st) > 0 && BucketOf(st.name) == b then [ExecTime(st)] else [])
  }

  /** Each bucket is the sum of the positive execution times of its
      steps. */
  lemma {:induction false} AggregateIsBucketSums(steps: seq<Step>, b: Bucket)
    ensures Get(AggregateStepExecutionTimes(steps), b) == Sum(BucketTimes(steps, b))
  {
    if |steps| > 0 {
      var st := steps[|steps| - 1];
      var prev := steps[..|steps| - 1];
      AggregateIsBucketSums(prev, b);
      var t := ExecTime(st);
      if t > 0 {
        AddToGet(AggregateStepExecutionTimes(prev), BucketOf(st.name), b, t);
        if BucketOf(st.name) == b {
          SumAppend(BucketTimes(prev, b), t);
        } else {
          assert BucketTimes(steps, b) == BucketTimes(prev, b) + [] == BucketTimes(prev, b);
        }
      } else {
        assert BucketTimes(steps, b) == BucketTimes(prev, b) + [] == BucketTimes(prev, b);
      }
    }
  }

  lemma AddToGet(a: Aggregated, into: Bucket, b: Bucket, t: int)
    ensures Get(AddTo(a, into, t), b) == Get(a, b) + (if into == b then t else 0)
  {
  }

  /** The buckets in chart order, the order of `CHART_STEP_PIE_LABELS`. */
  const ChartOrder: seq<Bucket> := [Cross, F2l, Oll, Pll, Other]

  function Rank(b: Bucket): nat
  {
    match b
    case Cross => 0
    case F2l => 1
    case Oll => 2
    case Pll => 3
    case Other => 4
  }

  /** The label the chart shows for a bucket. */
  function Label(b: Bucket): string
  {
    match b
    case Cross => "Cross"
    case F2l => "F2L"
    case Oll => "OLL"
    case Pll => "PLL"
    case Other => "Other"
  }

  /** The bucket a chart label names. */
  function LabelBucket(name: string): Bucket
  {
    match name
    case "Cross" => Cross
    case "F2L" => F2l
    case "OLL" => Oll
    case "PLL" => Pll
    case _ => Other
  }

  /** The `forEach` over the buckets: each one with a positive time pushes
      its label and time. */
  function Slices(a: Aggregated, bs: seq<Bucket>): seq<(string, int)>
  {
    if |bs| == 0 then []
    else
      (if Get(a, bs[0]) > 0 then [(Label(bs[0]), Get(a, bs[0]))] else []) + Slices(a, bs[1..])
  }

  predicate InChartOrder(bs: seq<Bucket>)
  {
    forall i, j :: 0 <= i < j < |bs| ==> Rank(bs[i]) < Rank(bs[j])
  }

  /** The first slice comes from the first bucket when its time is
      positive, the others from the rest of the list. */
  lemma SlicesCons(a: Aggregated, bs: seq<Bucket>)
    requires |bs| > 0
    ensures Slices(a, bs) == (if Get(a, bs[0]) > 0 then [(Label(bs[0]), Get(a, bs[0]))] else []) + Slices(a, bs[1..])
    ensures forall b :: b in bs <==> b == bs[0] || b in bs[1..]
  {
    assert bs == [bs[0]] + bs[1..];
  }

  /** A bucket has a slice exactly when it is listed with a positive
      time. */
  lemma {:induction false} SlicesHasBucket(a: Aggregated, bs: seq<Bucket>, b: Bucket)
    ensures (exists k :: 0 <= k < |Slices(a, bs)| && Slices(a, bs)[k] == (Label(b), Get(a, b)))
            <==> b in bs && Get(a, b) > 0
  {
    if |bs| > 0 {
      var h := bs[0];
      SlicesCons(a, bs);
      SlicesHasBucket(a, bs[1..], b);
      var rest := Slices(a, bs[1..]);
      var front: seq<(string, int)> := if Get(a, h) > 0 then [(Label(h), Get(a, h))] else [];
      var r := Slices(a, bs);
      if exists k :: 0 <= k < |r| && r[k] == (Label(b), Get(a, b)) {
        var k :| 0 <= k < |r| && r[k] == (Label(b), Get(a, b));
        if k < |front| {
          assert LabelBucket(Label(b)) == b && LabelBucket(Label(h)) == h;
        } else {
          assert rest[k - |front|] == (Label(b), Get(a, b));
        }
      }
      if b in bs && Get(a, b) > 0 {
        if b == h {
          assert r[0] == (Label(b), Get(a, b));
        } else {
          var k :| 0 <= k < |rest| && rest[k] == (Label(b), Get(a, b));
          assert r[k + |front|] == rest[k];
        }
      }
    }
  }

  /** Every slice is the label and positive time of a listed bucket. */
  lemma {:induction false} SlicesCarryBucket(a: Aggregated, bs: seq<Bucket>)
    ensures |Slices(a, bs)| <= |bs|
    ensures forall k :: 0 <= k < |Slices(a, bs)| ==>
              var b := LabelBucket(Slices(a, bs)[k].0);
              b in bs && Slices(a, bs)[k] == (Label(b), Get(a, b)) && Get(a, b) > 0
  {
    if |bs| > 0 {
      SlicesCons(a, bs);
      SlicesCarryBucket(a, bs[1..]);
      var rest := Slices(a, bs[1..]);
      var front: seq<(string, int)> := if Get(a, bs[0]) > 0 then [(Label(bs[0]), Get(a, bs[0]))] else [];
      var r := Slices(a, bs);
      forall k | 0 <= k < |r|
        ensures var b := LabelBucket(r[k].0); b in bs && r[k] == (Label(b), Get(a, b)) && Get(a, b) > 0
      {
        if k >= |front| {
          assert r[k] == rest[k - |front|];
        }
      }
    }
  }

  /** Slices whose buckets have increasing ranks. */
  predicate RanksIncrease(r: seq<(string, int)>)
  {
    forall i, j :: 0 <= i < j < |r| ==> Rank(LabelBucket(r[i].0)) < Rank(LabelBucket(r[j].0))
  }

  /** The slices of the rest of the list rank above its first bucket. */
  lemma TailRanksAbove(a: Aggregated, bs: seq<Bucket>)
    requires InChartOrder(bs) && |bs| > 0
    ensures forall k :: 0 <= k < |Slices(a, bs[1..])| ==> Rank(bs[0]) < Rank(LabelBucket(Slices(a, bs[1..])[k].0))
  {
    var tail := bs[1..];
    SlicesCarryBucket(a, tail);
    forall b | b in tail ensures Rank(bs[0]) < Rank(b) {
      var i :| 0 <= i < |tail| && tail[i] == b;
      assert bs[i + 1] == b;
    }
  }

  lemma OrderedCons(front: seq<(string, int)>, rest: seq<(string, int)>, low: nat)
    requires |front| <= 1 && (|front| == 1 ==> Rank(LabelBucket(front[0].0)) == low)
    requires forall k :: 0 <= k < |rest| ==> low < Rank(LabelBucket(rest[k].0))
    requires RanksIncrease(rest)
    ensures RanksIncrease(front + rest)
  {
    var r := front + rest;
    forall i, j | 0 <= i < j < |r|
      ensures Rank(LabelBucket(r[i].0)) < Rank(LabelBucket(r[j].0))
    {
      assert r[j] == rest[j - |front|];
      if i >= |front| {
        assert r[i] == rest[i - |front|];
      }
    }
  }

  /** Slices follow the order of the list. */
  lemma {:induction false} SlicesOrdered(a: Aggregated, bs: seq<Bucket>)
    requires InChartOrder(bs)
    ensures RanksIncrease(Slices(a, bs))
  {
    if |bs| > 0 {
      var h, tail := bs[0], bs[1..];
      assert InChartOrder(tail) by {
        assert forall i :: 0 <= i < |tail| ==> tail[i] == bs[i + 1];
      }
      SlicesCons(a, bs);
      SlicesOrdered(a, tail);
      TailRanksAbove(a, bs);
      var front: seq<(string, int)> := if Get(a, h) > 0 then [(Label(h), Get(a, h))] else [];
      OrderedCons(front, Slices(a, tail), Rank(h));
    }
  }

  /** The chart gets the buckets with a positive time, as (label, time) in
      chart order: a bucket has a slice exactly when its time is positive,
      and each slice carries its bucket's label and time. */
  function PieSlices(a: Aggregated): (r: seq<(string, int)>)
    ensures |r| <= 5
    ensures forall b :: (exists k :: 0 <= k < |r| && r[k] == (Label(b), Get(a, b))) <==> Get(a, b) > 0
    ensures forall k :: 0 <= k < |r| ==>
              var b := LabelBucket(r[k].0);
              r[k] == (Label(b), Get(a, b)) && r[k].1 > 0
    ensures forall i, j :: 0 <= i < j < |r| ==> Rank(LabelBucket(r[i].0)) < Rank(LabelBucket(r[j].0))
  {
    assert forall b :: b in ChartOrder by {
      forall b ensures b in ChartOrder {
        assert ChartOrder[Rank(b)] == b;
      }
    }
    forall b ensures (exists k :: 0 <= k < |Slices(a, ChartOrder)| && Slices(a, ChartOrder)[k] == (Label(b), Get(a, b)))
                     <==> Get(a, b) > 0
    {
      SlicesHasBucket(a, ChartOrder, b);
    }
    SlicesCarryBucket(a, ChartOrder);
    SlicesOrdered(a, ChartOrder);
    Slices(a, ChartOrder)
  }

  /** There is a chart exactly when some execution time was counted. */
  lemma ChartIffTime(steps: seq<Step>)
    ensures |PieSlices(AggregateStepExecutionTimes(steps))| > 0 <==> AggregateStepExecutionTimes(steps).total > 0
  {
    var a := AggregateStepExecutionTimes(steps);
    var r := PieSlices(a);
    if a.total > 0 {
      var b := if a.cross > 0 then Cross else if a.f2l > 0 then F2l else if a.oll > 0 then Oll
               else if a.pll > 0 then Pll else Other;
      assert Get(a, b) > 0;
    }
    if |r| > 0 {
      assert Get(a, LabelBucket(r[0].0)) > 0;
    }
  }

  // ---------------------------------------------------------------------------
  // Average window

  /** `sizeFromType`: any type other than "ao5" and "ao12" means 100. */
  function SizeFromType(avgType: string): (r: nat)
    ensures r in {5, 12, 100}
    ensures r == 5 <==> avgType == "ao5"
    ensures r == 12 <==> avgType == "ao12"
  {
    if avgType == "ao5" then 5 else if avgType == "ao12" then 12 else 100
  }

  /** A row of the average table: the solve and its 1-based number in the
      session. */
  datatype AvgRow = AvgRow(solve: Solve, originalIndex: nat)

  /** The window of `showAverageDetails`: `slice(startIndex, recordIndex + 1)`
      with `startIndex = recordIndex - N + 1`. Nothing opens when the start
      is before the first attempt (the early return), nor when it is at or
      past the end of the list: the slice is then empty and reading the date
      of its last solve throws before the modal is shown. `slice` stops at
      the end of the list. */
  function AverageWindow(solves: seq<Solve>, avgType: string, recordIndex: int): (r: Option<seq<AvgRow>>)
    ensures r.None? <==> recordIndex - SizeFromType(avgType) + 1 < 0
                         || recordIndex - SizeFromType(avgType) + 1 >= |solves|
    ensures r.Some? ==>
              var start := recordIndex - SizeFromType(avgType) + 1;
              var end := if recordIndex + 1 <= |solves| then recordIndex + 1 else |solves|;
              && 0 < |r.value| == end - start <= SizeFromType(avgType)
              && forall i :: 0 <= i < |r.value| ==>
                   r.value[i] == AvgRow(solves[start + i], start + i + 1)
  {
    var n := SizeFromType(avgType);
    var start := recordIndex - n + 1;
    if start < 0 || start >= |solves| then None
    else
      var end := if recordIndex + 1 <= |solves| then recordIndex + 1 else |solves|;
      var window := solves[start..end];
      Some(seq(|window|, i requires 0 <= i < |window| => AvgRow(window[i], start + i + 1)))
  }

  function RowSolves(rows: seq<AvgRow>): seq<Solve>
  {
    seq(|rows|, i requires 0 <= i < |rows| => rows[i].solve)
  }

  /** For a record index inside the session, the table shows exactly the
      attempts whose average the rolling series holds at that index. */
  lemma WindowIsAveragedWindow(solves: seq<Solve>, avgType: string, recordIndex: nat)
    requires recordIndex < |solves| && recordIndex + 1 >= SizeFromType(avgType)
    ensures var n := SizeFromType(avgType);
            && AverageWindow(solves, avgType, recordIndex).Some?
            && |AverageWindow(solves, avgType, recordIndex).value| == n
            && Times(RowSolves(AverageWindow(solves, avgType, recordIndex).value))
               == Times(solves)[recordIndex + 1 - n..recordIndex + 1]
  {
    var n := SizeFromType(avgType);
    var rows := AverageWindow(solves, avgType, recordIndex).value;
    TimesOfSlice(solves, RowSolves(rows), recordIndex + 1 - n, n);
  }

  lemma TimesOfSlice(solves: seq<Solve>, ws: seq<Solve>, start: nat, n: nat)
    requires start + n <= |solves| && |ws| == n
    requires forall i :: 0 <= i < n ==> ws[i] == solves[start + i]
    ensures Times(ws) == Times(solves)[start..start + n]
  {
  }

  /** The value shown as the average: `best<Type>[recordIndex]` of the
      record series, undefined for a type without one. */
  function AverageValue(bests: Rolling, avgType: string, recordIndex: int): Option<real>
  {
    var series := match avgType
      case "ao5" => bests.bestAo5
      case "ao12" => bests.bestAo12
      case "ao100" => bests.bestAo100
      case "single" => bests.bestSingle
      case _ => [];
    if 0 <= recordIndex < |series| then series[recordIndex] else None
  }

  // ---------------------------------------------------------------------------
  // Average table sorting

  /** `a[column]` for a row of the average table; `originalIndex` is the
      row's own field. */
  function RowColumn(row: AvgRow, column: string): Value
  {
    if column == "originalIndex" then Num(row.originalIndex) else SolveColumn(row.solve, column)
  }

  function RowKey(column: string, ascending: bool): Key<AvgRow>
  {
    Key((r: AvgRow) => RowColumn(r, column), (r: AvgRow) => r.solve.dnf, column == "time", ascending)
  }

  datatype AvgTable = AvgTable(rows: seq<AvgRow>, sort: SortState)

  /** A freshly opened window: unsorted, next click ascending. */
  function OpenAverageTable(rows: seq<AvgRow>): (r: AvgTable)
    ensures r.rows == rows && r.sort.column.None?
  {
    AvgTable(rows, SortState(None, true))
  }

  /** `sortAverageTable`: nothing happens on an empty table; the same column
      flips the direction, any other column sorts ascending. */
  function SortAverageTable(t: AvgTable, column: string): (r: AvgTable)
    ensures |t.rows| == 0 ==> r == t
    ensures |t.rows| > 0 ==> r.sort == SortState(Some(column), if t.sort.column == Some(column) then !t.sort.ascending else true)
    ensures multiset(r.rows) == multiset(t.rows)
    ensures |t.rows| > 0 ==> SortedBy(r.rows, RowKey(column, r.sort.ascending))
    ensures |t.rows| > 0 ==>
              forall y :: Ties(r.rows, y, RowKey(column, r.sort.ascending))
                          == Ties(t.rows, y, RowKey(column, r.sort.ascending))
  {
    if |t.rows| == 0 then t
    else
      var ascending := if t.sort.column == Some(column) then !t.sort.ascending else true;
      RowKeyUniform(column, ascending);
      AvgTable(SortBy(t.rows, RowKey(column, ascending)), SortState(Some(column), ascending))
  }

  /** Every column of a row holds one kind of value. */
  lemma RowColumnKinds(a: AvgRow, b: AvgRow, column: string)
    ensures SameKind(RowColumn(a, column), RowColumn(b, column))
  {
    SolveColumnKinds(a.solve, b.solve, column);
  }

  /** Every column of the average table holds one kind of value, so its
      sort keeps tied rows in order. */
  lemma RowKeyUniform(column: string, ascending: bool)
    ensures Uniform(RowKey(column, ascending))
  {
    forall a: AvgRow, b: AvgRow
      ensures SameKind(RowKey(column, ascending).cell(a), RowKey(column, ascending).cell(b))
    {
      RowColumnKinds(a, b, column);
    }
  }

  /** After a sort every pair of rows is in order. */
  lemma AverageTableOrdersAllPairs(t: AvgTable, column: string, i: nat, j: nat)
    requires i <= j < |t.rows|
    ensures var r := SortAverageTable(t, column);
            Compare(r.rows[i], r.rows[j], RowKey(column, r.sort.ascending)) <= 0
  {
    var r := SortAverageTable(t, column);
    var key := RowKey(column, r.sort.ascending);
    forall a, b | 0 <= a < |r.rows| && 0 <= b < |r.rows|
      ensures SameKind(key.cell(r.rows[a]), key.cell(r.rows[b]))
    {
      RowColumnKinds(r.rows[a], r.rows[b], column);
    }
    SortedEverywhere(r.rows, key, i, j);
  }

  /** A new column of the average table always starts ascending, whatever
      the column (unlike the main table's date column). */
  lemma NewColumnAscending(t: AvgTable, column: string)
    requires |t.rows| > 0 && t.sort.column != Some(column)
    ensures SortAverageTable(t, column).sort.ascending
  {
  }

  // ---------------------------------------------------------------------------
  // Navigation between the modals

  /** A saved view on the back stack (only the average modal is ever
      saved). */
  datatype Saved = Saved(kind: string, content: string)

  /** The solve-detail modal (the id of the solve shown, if open), the
      average modal (open or hidden, with its content) and the back stack. */
  datatype Modals = Modals(detail: Option<string>, averageOpen: bool, averageContent: string, history: seq<Saved>)

  /** `closeModal`: hides the detail modal and forgets the back stack. */
  function CloseModal(m: Modals): (r: Modals)
    ensures r.detail.None? && r.history == []
    ensures r.averageOpen == m.averageOpen && r.averageContent == m.averageContent
  {
    m.(detail := None, history := [])
  }

  /** `showSolveDetails`: an unknown id changes nothing; coming from a shown
      average modal saves it on the stack and hides it. */
  function ShowSolveDetails(m: Modals, allSolves: seq<Solve>, id: string, fromAverage: bool): (r: Modals)
    ensures (forall k :: 0 <= k < |allSolves| ==> allSolves[k].id != id) ==> r == m
    ensures (exists k :: 0 <= k < |allSolves| && allSolves[k].id == id) ==>
              && r.detail == Some(id)
              && r.averageContent == m.averageContent
              && (fromAverage && m.averageOpen ==>
                    !r.averageOpen && r.history == m.history + [Saved("average", m.averageContent)])
              && (!(fromAverage && m.averageOpen) ==> r.averageOpen == m.averageOpen && r.history == m.history)
  {
    if forall k :: 0 <= k < |allSolves| ==> allSolves[k].id != id then m
    else
      var m1 := if fromAverage && m.averageOpen
                then m.(history := m.history + [Saved("average", m.averageContent)], averageOpen := false)
                else m;
      m1.(detail := Some(id))
  }

  /** `goBackInModal`: an empty stack does nothing; popping a saved average
      view closes the detail modal (which also clears the stack) and shows
      the saved content again. */
  function GoBackInModal(m: Modals): (r: Modals)
    ensures |m.history| == 0 ==> r == m
    ensures |m.history| > 0 && m.history[|m.history| - 1].kind == "average" ==>
              r == Modals(None, true, m.history[|m.history| - 1].content, [])
    ensures |m.history| > 0 && m.history[|m.history| - 1].kind != "average" ==>
              r == m.(history := m.history[..|m.history| - 1])
  {
    if |m.history| == 0 then m
    else
      var top := m.history[|m.history| - 1];
      var m1 := m.(history := m.history[..|m.history| - 1]);
      if top.kind == "average" then CloseModal(m1).(averageContent := top.content, averageOpen := true)
      else m1
  }

  /** Opening a solve from a shown average modal and going back returns to
      that average modal with its content, detail closed and stack empty. */
  lemma BackRestoresAverage(m: Modals, allSolves: seq<Solve>, k: nat)
    requires k < |allSolves| && m.averageOpen
    ensures var shown := ShowSolveDetails(m, allSolves, allSolves[k].id, true);
            GoBackInModal(shown) == Modals(None, true, m.averageContent, [])
  {
  }

  /** Only average views are ever saved, so the stack keeps that shape. */
  predicate OnlyAverages(m: Modals)
  {
    forall k :: 0 <= k < |m.history| ==> m.history[k].kind == "average"
  }

  lemma NavigationKeepsOnlyAverages(m: Modals, allSolves: seq<Solve>, id: string, fromAverage: bool)
    requires OnlyAverages(m)
    ensures OnlyAverages(ShowSolveDetails(m, allSolves, id, fromAverage))
    ensures OnlyAverages(GoBackInModal(m)) && OnlyAverages(CloseModal(m))
    ensures |m.history| > 0 ==> GoBackInModal(m).history == []
  {
  }
}
