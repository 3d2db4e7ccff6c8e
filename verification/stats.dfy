/** The statistics panel: the date-range filter, OLL/PLL skip rates, average
    time per step, the summary over the non-DNF solves, the total-time
    breakdown and the display order of the step names. */
module Stats {
  import opened Common
  import opened Solves

  // ---------------------------------------------------------------------------
  // Date range

  /** `filterSolvesByDateRange`: both ends inclusive. */
  function FilterSolvesByDateRange(solves: seq<Solve>, start: int, end: int): (r: seq<Solve>)
  {
    Filter(solves, (s: Solve) => start <= s.date <= end)
  }

  /** A solve is kept exactly when it is one of the input and its date lies
      in the closed range; the kept solves keep their order. */
  lemma DateRangeMembers(solves: seq<Solve>, start: int, end: int, s: Solve)
    ensures s in FilterSolvesByDateRange(solves, start, end) <==> s in solves && start <= s.date <= end
  {
    FilterMembers(solves, (s: Solve) => start <= s.date <= end, s);
  }

  /** Filtering the solves of two lists is filtering each list. */
  lemma DateRangeConcat(a: seq<Solve>, b: seq<Solve>, start: int, end: int)
    ensures FilterSolvesByDateRange(a + b, start, end)
            == FilterSolvesByDateRange(a, start, end) + FilterSolvesByDateRange(b, start, end)
  {
    FilterConcat(a, b, (s: Solve) => start <= s.date <= end);
  }

  /** Applying the same range twice changes nothing. */
  lemma DateRangeIdempotent(solves: seq<Solve>, start: int, end: int)
    ensures FilterSolvesByDateRange(FilterSolvesByDateRange(solves, start, end), start, end)
            == FilterSolvesByDateRange(solves, start, end)
  {
    FilterIdempotent(solves, (s: Solve) => start <= s.date <= end);
  }

  /** An inverted range keeps nothing. */
  lemma DateRangeInverted(solves: seq<Solve>, start: int, end: int)
    requires end < start
    ensures FilterSolvesByDateRange(solves, start, end) == []
  {
    var r := FilterSolvesByDateRange(solves, start, end);
    if |r| > 0 {
      DateRangeMembers(solves, start, end, r[0]);
      assert false;
    }
  }

  // ---------------------------------------------------------------------------
  // OLL / PLL skips

  /** `step.name && step.name.toLowerCase() === key`. */
  predicate NameIs(step: Step, key: string)
  {
    step.name != "" && Lower(step.name) == key
  }

  /** `steps.find(...)`: the first step named `key` (ignoring case). */
  function FindStep(steps: seq<Step>, key: string): (r: Option<Step>)
    ensures r.None? <==> forall i :: 0 <= i < |steps| ==> !NameIs(steps[i], key)
    ensures r.Some? ==> exists i :: 0 <= i < |steps| && steps[i] == r.value && NameIs(steps[i], key)
                                    && forall j :: 0 <= j < i ==> !NameIs(steps[j], key)
  {
    if |steps| == 0 then None
    else if NameIs(steps[0], key) then Some(steps[0])
    else
      var r := FindStep(steps[1..], key);
      assert forall i :: 1 <= i < |steps| ==> steps[i] == steps[1..][i - 1];
      if r.Some? then
        var i :| 0 <= i < |steps[1..]| && steps[1..][i] == r.value && NameIs(steps[1..][i], key)
                 && forall j :: 0 <= j < i ==> !NameIs(steps[1..][j], key);
        assert steps[i + 1] == r.value;
        r
      else r
  }

  /** A step counts as skipped when it took no time or no execution time. */
  predicate IsSkip(step: Step)
  {
    step.time == 0 || step.executionTime == Some(0)
  }

  predicate HasStep(s: Solve, key: string)
  {
    |s.steps| > 0 && FindStep(s.steps, key).Some?
  }

  predicate SkippedStep(s: Solve, key: string)
  {
    HasStep(s, key) && IsSkip(FindStep(s.steps, key).value)
  }

  datatype SkipData = SkipData(count: nat, rate: real)

  /** The two counters of the skip loop: solves with a skip, solves with the
      step at all. */
  function SkipTally(solves: seq<Solve>, key: string): (nat, nat)
  {
    if |solves| == 0 then (0, 0)
    else
      var (skips, total) := SkipTally(solves[..|solves| - 1], key);
      var s := solves[|solves| - 1];
      if !HasStep(s, key) then (skips, total)
      else if IsSkip(FindStep(s.steps, key).value) then (skips + 1, total + 1)
      else (skips, total + 1)
  }

  /** The counters count the solves with a skipped step and the solves
      having the step. */
  lemma {:induction false} SkipTallyCounts(solves: seq<Solve>, key: string)
    ensures SkipTally(solves, key).0 == |Filter(solves, (s: Solve) => SkippedStep(s, key))|
    ensures SkipTally(solves, key).1 == |Filter(solves, (s: Solve) => HasStep(s, key))|
  {
    if |solves| > 0 {
      SkipTallyCounts(solves[..|solves| - 1], key);
    }
  }

  /** `count / total * 100`, or 0 when the total is 0. */
  function Percent(count: nat, total: nat): (r: real)
    ensures total == 0 ==> r == 0.0
    ensures total > 0 ==> r * total as real == count as real * 100.0
    ensures count <= total ==> 0.0 <= r <= 100.0
  {
    if total == 0 then 0.0 else (count as real / total as real) * 100.0
  }

  /** `calculateOLLSkipRate` / `calculatePLLSkipRate` with `key` = "oll" or
      "pll": the number of skips and their percentage among the solves that
      have the step. */
  function CalculateSkipRate(solves: seq<Solve>, key: string): (r: SkipData)
    ensures var withStep := |Filter(solves, (s: Solve) => HasStep(s, key))|;
            && r.count == |Filter(solves, (s: Solve) => SkippedStep(s, key))|
            && r.count <= withStep
            && r.rate == Percent(r.count, withStep)
  {
    SkipTallyCounts(solves, key);
    SkipsHaveStep(solves, key);
    var (skips, total) := SkipTally(solves, key);
    SkipData(skips, Percent(skips, total))
  }

  lemma {:induction false} SkipsHaveStep(solves: seq<Solve>, key: string)
    ensures SkipTally(solves, key).0 <= SkipTally(solves, key).1
  {
    if |solves| > 0 {
      SkipsHaveStep(solves[..|solves| - 1], key);
    }
  }

  function CalculateOllSkipRate(solves: seq<Solve>): SkipData
  {
    CalculateSkipRate(solves, "oll")
  }

  function CalculatePllSkipRate(solves: seq<Solve>): SkipData
  {
    CalculateSkipRate(solves, "pll")
  }

  // ---------------------------------------------------------------------------
  // Average time per step

  /** Running total and count of one step name (`stepTotals`/`stepCounts`). */
  datatype Acc = Acc(total: int, count: nat)

  function Get(t: map<string, Acc>, k: string): Acc
  {
    if k in t then t[k] else Acc(0, 0)
  }

  /** One step of the inner loop: the entry is (re)started when missing or
      when its total is still 0, and a step with a positive time adds to
      it. */
  function AddStep(t: map<string, Acc>, step: Step): (r: map<string, Acc>)
  {
    var t1 := if step.name !in t || t[step.name].total == 0 then t[step.name := Acc(0, 0)] else t;
    if step.time > 0 then t1[step.name := Acc(t1[step.name].total + step.time, t1[step.name].count + 1)]
    else t1
  }

  function AddSteps(t: map<string, Acc>, steps: seq<Step>): map<string, Acc>
  {
    if |steps| == 0 then t else AddStep(AddSteps(t, steps[..|steps| - 1]), steps[|steps| - 1])
  }

  /** The outer loop: solves without steps and DNF solves are passed over. */
  function StepTotals(solves: seq<Solve>): map<string, Acc>
  {
    if |solves| == 0 then map[]
    else
      var t := StepTotals(solves[..|solves| - 1]);
      var s := solves[|solves| - 1];
      if |s.steps| == 0 || s.dnf then t else AddSteps(t, s.steps)
  }

  /** `calculateAverageStepTimes`: per step name, total over count; `None`
      stands for `0 / 0` (`NaN`) when the name never had a positive time. */
  function CalculateAverageStepTimes(solves: seq<Solve>): map<string, Option<real>>
  {
    var t := StepTotals(solves);
    map k | k in t :: if t[k].count == 0 then None else Some(t[k].total as real / t[k].count as real)
  }

  /** Reference: the positive times of the steps named `k`, in order. */
  function StepTimes(steps: seq<Step>, k: string): seq<int>
  {
    if |steps| == 0 then []
    else
      var st := steps[|steps| - 1];
      StepTimes(steps[..|steps| - 1], k) + (if st.name == k && st.time > 0 then [st.time] else [])
  }

  function StepNames(steps: seq<Step>): set<string>
  {
    if |steps| == 0 then {} else StepNames(steps[..|steps| - 1]) + {steps[|steps| - 1].name}
  }

  /** Reference: the positive times of steps named `k` over the non-DNF
      solves. */
  function SolveStepTimes(solves: seq<Solve>, k: string): seq<int>
  {
    if |solves| == 0 then []
    else
      var s := solves[|solves| - 1];
      SolveStepTimes(solves[..|solves| - 1], k) + (if s.dnf then [] else StepTimes(s.steps, k))
  }

  /** Reference: the step names occurring in non-DNF solves. */
  function SolveStepNames(solves: seq<Solve>): set<string>
  {
    if |solves| == 0 then {}
    else
      var s := solves[|solves| - 1];
      SolveStepNames(solves[..|solves| - 1]) + (if s.dnf then {} else StepNames(s.steps))
  }

  predicate AllPositive(xs: seq<int>)
  {
    forall i :: 0 <= i < |xs| ==> xs[i] > 0
  }

  /** A sum of positive values is 0 only when there are none. */
  lemma {:induction false} PositiveSum(xs: seq<int>)
    requires AllPositive(xs)
    ensures Sum(xs) >= 0
    ensures Sum(xs) == 0 <==> |xs| == 0
    ensures Sum(xs) >= |xs|
  {
    if |xs| > 0 {
      PositiveSum(xs[..|xs| - 1]);
    }
  }

  lemma {:induction false} StepTimesPositive(steps: seq<Step>, k: string)
    ensures AllPositive(StepTimes(steps, k))
  {
    if |steps| > 0 {
      StepTimesPositive(steps[..|steps| - 1], k);
    }
  }

  /** An entry holds the sum and the number of some positive times. */
  predicate Sane(t: map<string, Acc>)
  {
    forall k :: k in t ==> t[k].total >= 0 && (t[k].total == 0 <==> t[k].count == 0)
  }
  /** Adds one positive time to an entry. */
  function Plus(a: Acc, x: int): Acc
  {
    Acc(a.total + x, a.count + 1)
  }

  /** One step: its name gets an entry, and only that entry changes, by the
      step's time when positive. Restarting an entry whose total is 0 loses
      nothing, because such an entry has count 0. */
  lemma AddStepEntry(u: map<string, Acc>, st: Step)
    requires Sane(u)
    ensures Sane(AddStep(u, st))
    ensures AddStep(u, st).Keys == u.Keys + {st.name}
    ensures forall k :: k in AddStep(u, st) ==>
              AddStep(u, st)[k] == if k == st.name && st.time > 0 then Plus(Get(u, k), st.time) else Get(u, k)
  {
  }

  lemma {:induction false} StepTimesNames(steps: seq<Step>, k: string)
    ensures k !in StepNames(steps) ==> StepTimes(steps, k) == []
  {
    if |steps| > 0 {
      StepTimesNames(steps[..|steps| - 1], k);
    }
  }

  /** The step times named `k` of `steps + [st]`, summed and counted. */
  lemma StepTimesSnoc(steps: seq<Step>, k: string)
    requires |steps| > 0
    ensures var st := steps[|steps| - 1];
            var prev := StepTimes(steps[..|steps| - 1], k);
            && Sum(StepTimes(steps, k)) == Sum(prev) + (if st.name == k && st.time > 0 then st.time else 0)
            && |StepTimes(steps, k)| == |prev| + (if st.name == k && st.time > 0 then 1 else 0)
  {
    var st := steps[|steps| - 1];
    var prev := StepTimes(steps[..|steps| - 1], k);
    if st.name == k && st.time > 0 {
      SumAppend(prev, st.time);
    } else {
      assert StepTimes(steps, k) == prev;
    }
  }

  /** The inner loop keeps every entry sane and creates an entry for every
      name it meets. */
  lemma {:induction false} AddStepsKeys(t: map<string, Acc>, steps: seq<Step>)
    requires Sane(t)
    ensures Sane(AddSteps(t, steps))
    ensures AddSteps(t, steps).Keys == t.Keys + StepNames(steps)
  {
    if |steps| > 0 {
      var steps' := steps[..|steps| - 1];
      AddStepsKeys(t, steps');
      AddStepEntry(AddSteps(t, steps'), steps[|steps| - 1]);
    }
  }

  /** The inner loop adds each name's positive step times to its entry. */
  lemma {:induction false} AddStepsValues(t: map<string, Acc>, steps: seq<Step>)
    requires Sane(t)
    ensures forall k :: k in AddSteps(t, steps) ==>
              AddSteps(t, steps)[k] == Acc(Get(t, k).total + Sum(StepTimes(steps, k)),
                                           Get(t, k).count + |StepTimes(steps, k)|)
  {
    if |steps| == 0 {
      forall k | k in t ensures t[k] == Acc(Get(t, k).total + Sum(StepTimes(steps, k)),
                                            Get(t, k).count + |StepTimes(steps, k)|) {
      }
    } else {
      var steps' := steps[..|steps| - 1];
      var st := steps[|steps| - 1];
      AddStepsValues(t, steps');
      AddStepsKeys(t, steps');
      var u := AddSteps(t, steps');
      var r := AddStep(u, st);
      assert AddSteps(t, steps) == r;
      AddStepEntry(u, st);
      forall k | k in r
        ensures r[k] == Acc(Get(t, k).total + Sum(StepTimes(steps, k)), Get(t, k).count + |StepTimes(steps, k)|)
      {
        AddStepsPoint(t, steps, k, Get(u, k), r[k]);
      }
    }
  }

  /** The inner loop adds each name's positive step times to its entry and
      creates an entry for every name it meets. */
  lemma AddStepsCorrect(t: map<string, Acc>, steps: seq<Step>)
    requires Sane(t)
    ensures Sane(AddSteps(t, steps))
    ensures AddSteps(t, steps).Keys == t.Keys + StepNames(steps)
    ensures forall k :: k in AddSteps(t, steps) ==>
              AddSteps(t, steps)[k] == Acc(Get(t, k).total + Sum(StepTimes(steps, k)),
                                           Get(t, k).count + |StepTimes(steps, k)|)
  {
    AddStepsKeys(t, steps);
    AddStepsValues(t, steps);
  }

  /** The entry of one name after one more step, from the entry before. */
  lemma AddStepsPoint(t: map<string, Acc>, steps: seq<Step>, k: string, before: Acc, after: Acc)
    requires |steps| > 0
    requires k in t || k in StepNames(steps[..|steps| - 1]) ==>
               before == Acc(Get(t, k).total + Sum(StepTimes(steps[..|steps| - 1], k)),
                             Get(t, k).count + |StepTimes(steps[..|steps| - 1], k)|)
    requires !(k in t || k in StepNames(steps[..|steps| - 1])) ==> before == Acc(0, 0)
    requires var st := steps[|steps| - 1];
             after == if k == st.name && st.time > 0 then Plus(before, st.time) else before
    ensures after == Acc(Get(t, k).total + Sum(StepTimes(steps, k)), Get(t, k).count + |StepTimes(steps, k)|)
  {
    StepTimesSnoc(steps, k);
    StepTimesNames(steps[..|steps| - 1], k);
  }

  lemma {:induction false} SolveStepTimesNames(solves: seq<Solve>, k: string)
    ensures k !in SolveStepNames(solves) ==> SolveStepTimes(solves, k) == []
  {
    if |solves| > 0 {
      SolveStepTimesNames(solves[..|solves| - 1], k);
      StepTimesNames(solves[|solves| - 1].steps, k);
    }
  }

  /** The step times named `k` of the solves, with the last solve split off. */
  lemma SolveStepTimesSnoc(solves: seq<Solve>, k: string)
    requires |solves| > 0
    ensures var s := solves[|solves| - 1];
            var prev := SolveStepTimes(solves[..|solves| - 1], k);
            var own := if s.dnf then [] else StepTimes(s.steps, k);
            && Sum(SolveStepTimes(solves, k)) == Sum(prev) + Sum(own)
            && |SolveStepTimes(solves, k)| == |prev| + |own|
  {
    var s := solves[|solves| - 1];
    SumConcat(SolveStepTimes(solves[..|solves| - 1], k), if s.dnf then [] else StepTimes(s.steps, k));
  }

  /** Over the solves, each entry holds the total and the number of the
      positive times of its name, and the names are those of the non-DNF
      solves' steps. */
  lemma {:induction false} StepTotalsCorrect(solves: seq<Solve>)
    ensures Sane(StepTotals(solves))
    ensures StepTotals(solves).Keys == SolveStepNames(solves)
    ensures forall k :: k in StepTotals(solves) ==>
              StepTotals(solves)[k] == Acc(Sum(SolveStepTimes(solves, k)), |SolveStepTimes(solves, k)|)
  {
    if |solves| > 0 {
      var solves' := solves[..|solves| - 1];
      var s := solves[|solves| - 1];
      StepTotalsCorrect(solves');
      var t := StepTotals(solves');
      forall k | k in StepTotals(solves)
        ensures StepTotals(solves)[k] == Acc(Sum(SolveStepTimes(solves, k)), |SolveStepTimes(solves, k)|)
      {
        SolveStepTimesSnoc(solves, k);
        SolveStepTimesNames(solves', k);
        if |s.steps| == 0 || s.dnf {
          assert s.dnf || StepTimes(s.steps, k) == [];
        } else {
          AddStepsCorrect(t, s.steps);
        }
      }
      if |s.steps| == 0 || s.dnf {
        assert s.dnf || StepNames(s.steps) == {};
      } else {
        AddStepsCorrect(t, s.steps);
      }
    }
  }

  /** The averages are keyed by the step names of the non-DNF solves; a name
      maps to the mean of its positive times, or to `NaN` when it has
      none, and a mean is at least one millisecond. */
  lemma AverageStepTimesCorrect(solves: seq<Solve>, k: string)
    ensures k in CalculateAverageStepTimes(solves) <==> k in SolveStepNames(solves)
    ensures k in CalculateAverageStepTimes(solves) ==>
              var times := SolveStepTimes(solves, k);
              && (CalculateAverageStepTimes(solves)[k].None? <==> |times| == 0)
              && (|times| > 0 ==> CalculateAverageStepTimes(solves)[k]
                                  == Some(Sum(times) as real / |times| as real))
    ensures k in CalculateAverageStepTimes(solves) && CalculateAverageStepTimes(solves)[k].Some? ==>
              CalculateAverageStepTimes(solves)[k].value >= 1.0
  {
    StepTotalsCorrect(solves);
    var t := StepTotals(solves);
    var times := SolveStepTimes(solves, k);
    SolveStepTimesPositive(solves, k);
    PositiveSum(times);
    if k in t && |times| > 0 {
      MeanAtLeastOne(Sum(times), |times|);
    }
  }

  lemma MeanAtLeastOne(total: int, n: nat)
    requires n > 0 && total >= n
    ensures total as real / n as real >= 1.0
  {
  }

  lemma {:induction false} SolveStepTimesPositive(solves: seq<Solve>, k: string)
    ensures AllPositive(SolveStepTimes(solves, k))
  {
    if |solves| > 0 {
      SolveStepTimesPositive(solves[..|solves| - 1], k);
      StepTimesPositive(solves[|solves| - 1].steps, k);
    }
  }

  // ---------------------------------------------------------------------------
  // Summary

  datatype Statistics = Statistics(
    totalSolves: nat,
    avgTime: real,
    totalSolvingTime: int,
    ollSkip: SkipData,
    pllSkip: SkipData,
    avgStepTimes: map<string, Option<real>>)

  function NonDnf(solves: seq<Solve>): seq<Solve>
  {
    Filter(solves, (s: Solve) => !s.dnf)
  }

  function TotalTime(solves: seq<Solve>): int
  {
    if |solves| == 0 then 0 else TotalTime(solves[..|solves| - 1]) + solves[|solves| - 1].time
  }

  /** The mean solve time, 0 for no solves. */
  function MeanTime(total: int, n: nat): (r: real)
    ensures n == 0 ==> r == 0.0
    ensures n > 0 ==> r * n as real == total as real
  {
    if n > 0 then total as real / n as real else 0.0
  }

  /** `calculateStatistics`: everything is computed over the non-DNF solves;
      the mean is 0 when there is none. */
  function CalculateStatistics(solves: seq<Solve>): (r: Statistics)
    ensures r.totalSolves == |NonDnf(solves)|
    ensures r.totalSolves == 0 ==> r.avgTime == 0.0
    ensures r.totalSolvingTime == TotalTime(NonDnf(solves))
    ensures r.avgTime == MeanTime(r.totalSolvingTime, r.totalSolves)
  {
    var valid := NonDnf(solves);
    var totalTime := TotalTime(valid);
    var mean := MeanTime(totalTime, |valid|);
    Statistics(
      |valid|,
      mean,
      totalTime,
      CalculateOllSkipRate(valid),
      CalculatePllSkipRate(valid),
      CalculateAverageStepTimes(valid))
  }

  /** The step totals already pass over DNF solves, so removing them first
      changes nothing. */
  lemma {:induction false} StepTotalsIgnoreDnf(solves: seq<Solve>)
    ensures StepTotals(NonDnf(solves)) == StepTotals(solves)
  {
    if |solves| > 0 {
      var solves' := solves[..|solves| - 1];
      var s := solves[|solves| - 1];
      StepTotalsIgnoreDnf(solves');
      if !s.dnf {
        var v := NonDnf(solves') + [s];
        assert NonDnf(solves) == v;
        assert v[..|v| - 1] == NonDnf(solves') && v[|v| - 1] == s;
        assert StepTotals(v) == if |s.steps| == 0 then StepTotals(solves') else AddSteps(StepTotals(solves'), s.steps);
      } else {
        assert NonDnf(solves) == NonDnf(solves');
        assert StepTotals(solves) == StepTotals(solves');
      }
    }
  }

  /** The step averages of the statistics are those of all the solves:
      DNF solves never contribute to them. */
  lemma StatisticsStepTimes(solves: seq<Solve>)
    ensures CalculateStatistics(solves).avgStepTimes == CalculateAverageStepTimes(solves)
  {
    StepTotalsIgnoreDnf(solves);
  }

  /** A DNF solve anywhere in the list changes none of the statistics. */
  lemma DnfDoesNotCount(a: seq<Solve>, d: Solve, b: seq<Solve>)
    requires d.dnf
    ensures CalculateStatistics(a + [d] + b) == CalculateStatistics(a + b)
  {
    var p := (s: Solve) => !s.dnf;
    FilterConcat(a + [d], b, p);
    FilterConcat(a, [d], p);
    FilterConcat(a, b, p);
    assert Filter([d], p) == [] by {
      assert [d][..0] == [];
    }
    assert NonDnf(a + [d] + b) == NonDnf(a + b);
  }

  // ---------------------------------------------------------------------------
  // Total time shown as h/m/s

  /** The total-time cell: nothing for a zero total, else hours, minutes and
      seconds with the leading zero units left out. */
  datatype TotalTimeText = NoTotal | Hms(h: nat, m: nat, s: nat) | Ms(m: nat, s: nat) | S(s: nat)

  function Seconds(t: TotalTimeText): int
  {
    match t
    case NoTotal => 0
    case Hms(h, m, s) => h * 3600 + m * 60 + s
    case Ms(m, s) => m * 60 + s
    case S(s) => s
  }

  lemma HmsSplit(t: nat)
    ensures (t % 3600) / 60 < 60 && t % 60 < 60
    ensures (t / 3600) * 3600 + ((t % 3600) / 60) * 60 + t % 60 == t
  {
    var r := t % 3600;
    assert t == (t / 3600) * 3600 + r;
    assert r == (r / 60) * 60 + r % 60;
    assert t % 60 == r % 60 by {
      assert t == ((t / 3600) * 60) * 60 + r;
    }
  }

  /** The whole seconds of the total are split into hours, minutes (below
      60) and seconds (below 60); the most significant unit shown is
      non-zero unless only seconds are shown. */
  function FormatTotalTime(totalMs: int): (r: TotalTimeText)
    ensures r.NoTotal? <==> totalMs <= 0
    ensures totalMs > 0 ==> Seconds(r) == totalMs / 1000
    ensures r.Hms? ==> r.h > 0 && r.m < 60 && r.s < 60
    ensures r.Ms? ==> r.m > 0 && r.m < 60 && r.s < 60
    ensures r.S? ==> r.s < 60
  {
    if totalMs <= 0 then NoTotal
    else
      var totalSeconds := totalMs / 1000;
      var hours := totalSeconds / 3600;
      var minutes := (totalSeconds % 3600) / 60;
      var seconds := totalSeconds % 60;
      HmsSplit(totalSeconds);
      if hours > 0 then Hms(hours, minutes, seconds)
      else if minutes > 0 then Ms(minutes, seconds)
      else S(seconds)
  }

  /** The breakdown is unique: any hours/minutes/seconds reading with minutes
      and seconds below 60 that adds up to the same seconds is the one
      shown. */
  lemma TotalTimeUnique(totalMs: int, h: nat, m: nat, s: nat)
    requires totalMs > 0 && m < 60 && s < 60 && h * 3600 + m * 60 + s == totalMs / 1000
    ensures h > 0 ==> FormatTotalTime(totalMs) == Hms(h, m, s)
    ensures h == 0 && m > 0 ==> FormatTotalTime(totalMs) == Ms(m, s)
    ensures h == 0 && m == 0 ==> FormatTotalTime(totalMs) == S(s)
  {
    var r := FormatTotalTime(totalMs);
    var t := totalMs / 1000;
    assert t / 3600 == h && t % 3600 == m * 60 + s by {
      assert t == h * 3600 + (m * 60 + s) && 0 <= m * 60 + s < 3600;
    }
    assert (t % 3600) / 60 == m && t % 60 == s by {
      assert t % 3600 == m * 60 + s;
      assert t == (h * 60 + m) * 60 + s;
    }
  }

  // ---------------------------------------------------------------------------
  // Display order of the step names

  const StepOrder: seq<string> := ["cross", "f2l slot 1", "f2l slot 2", "f2l slot 3", "f2l slot 4", "oll", "pll"]

  /** `stepOrder.findIndex(s => name.toLowerCase().includes(s))`. */
  function StepRank(name: string): (r: int)
    ensures -1 <= r < |StepOrder|
    ensures r == -1 <==> forall k :: 0 <= k < |StepOrder| ==> !Contains(Lower(name), StepOrder[k])
    ensures r >= 0 ==> Contains(Lower(name), StepOrder[r])
                       && forall k :: 0 <= k < r ==> !Contains(Lower(name), StepOrder[k])
  {
    RankFrom(Lower(name), 0)
  }

  function RankFrom(lower: string, k: nat): (r: int)
    requires k <= |StepOrder|
    ensures r == -1 || k <= r < |StepOrder|
    ensures r == -1 <==> forall j :: k <= j < |StepOrder| ==> !Contains(lower, StepOrder[j])
    ensures r >= 0 ==> Contains(lower, StepOrder[r]) && forall j :: k <= j < r ==> !Contains(lower, StepOrder[j])
    decreases |StepOrder| - k
  {
    if k == |StepOrder| then -1
    else if Contains(lower, StepOrder[k]) then k
    else RankFrom(lower, k + 1)
  }

  /** The display comparator: names matching a known step come first, in
      step order; the others follow, ordered by `localeCompare` (a
      parameter). */
  function CompareStepNames(a: string, b: string, localeCompare: (string, string) -> int): int
  {
    var ra := StepRank(a);
    var rb := StepRank(b);
    if ra != -1 && rb != -1 then ra - rb
    else if ra != -1 then -1
    else if rb != -1 then 1
    else localeCompare(a, b)
  }

  /** Swapping the arguments flips the sign whenever `localeCompare` does. */
  lemma CompareStepNamesAntisymmetric(a: string, b: string, localeCompare: (string, string) -> int)
    requires localeCompare(a, b) < 0 <==> localeCompare(b, a) > 0
    requires localeCompare(a, b) == 0 <==> localeCompare(b, a) == 0
    ensures CompareStepNames(a, b, localeCompare) < 0 <==> CompareStepNames(b, a, localeCompare) > 0
    ensures CompareStepNames(a, b, localeCompare) == 0 <==> CompareStepNames(b, a, localeCompare) == 0
  {
  }

  /** A known step always sorts before an unknown one, and two known steps
      sort by their position in the step order. */
  lemma KnownStepsFirst(a: string, b: string, localeCompare: (string, string) -> int)
    ensures StepRank(a) != -1 && StepRank(b) == -1 ==> CompareStepNames(a, b, localeCompare) < 0
    ensures StepRank(a) != -1 && StepRank(b) != -1 ==>
              (CompareStepNames(a, b, localeCompare) < 0 <==> StepRank(a) < StepRank(b))
  {
  }
}
