/** The record history: a left-to-right scan of one running-best series
    that lists the attempts where a new personal best was set, newest
    first. */
module Records {
  import opened Common
  import opened Solves
  import opened Averages

  /** One line of the list: the 1-based attempt number, the new best and the
      attempt's id (the single's detail button uses the id, the averages'
      buttons use the index, which is `solveNumber - 1`). */
  datatype Record = Record(solveNumber: nat, value: real, solveId: string)

  /** `(i < best.length) ? best[i] : null`. */
  function At(best: seq<Option<real>>, i: nat): Option<real>
  {
    if i < |best| then best[i] else None
  }

  /** The record test: a defined value below the last record, the first
      defined value beating `Infinity`. */
  predicate Beats(cur: Option<real>, last: Option<real>)
  {
    cur.Some? && (last.None? || cur.value < last.value)
  }

  /** The scan over the first `i` attempts: the last record (`None` for
      `Infinity`) and the lines found, newest first. */
  function Scan(solves: seq<Solve>, best: seq<Option<real>>, i: nat): (Option<real>, seq<Record>)
    requires i <= |solves|
  {
    if i == 0 then (None, [])
    else
      var (last, found) := Scan(solves, best, i - 1);
      var cur := At(best, i - 1);
      if Beats(cur, last) then (cur, [Record(i, cur.value, solves[i - 1].id)] + found)
      else (last, found)
  }

  /** The four series of personal bests; `rollingBestsData || {}` means a
      missing one reads as empty. */
  function Series(bests: Option<Rolling>, filter: string): seq<Option<real>>
  {
    if bests.None? then []
    else match filter
      case "single" => bests.value.bestSingle
      case "ao5" => bests.value.bestAo5
      case "ao12" => bests.value.bestAo12
      case "ao100" => bests.value.bestAo100
      case _ => []
  }

  /** `displayRecordHistory`: the lines of the active filter. An empty
      result is shown as the placeholder row. */
  function RecordHistory(solves: seq<Solve>, bests: Option<Rolling>, filter: string): seq<Record>
  {
    Scan(solves, Series(bests, filter), |solves|).1
  }

  /** The lines are newest first, each for an attempt of the list, and each
      carries the attempt's id and the best at that attempt. */
  lemma {:induction false} ScanShape(solves: seq<Solve>, best: seq<Option<real>>, i: nat)
    requires i <= |solves|
    ensures var found := Scan(solves, best, i).1;
            && |found| <= i
            && (forall k :: 0 <= k < |found| ==>
                  1 <= found[k].solveNumber <= i
                  && At(best, found[k].solveNumber - 1) == Some(found[k].value)
                  && found[k].solveId == solves[found[k].solveNumber - 1].id)
            && (forall k :: 0 <= k < |found| - 1 ==> found[k].solveNumber > found[k + 1].solveNumber)
  {
    if i > 0 {
      ScanShape(solves, best, i - 1);
    }
  }

  function Numbers(found: seq<Record>): set<nat>
  {
    set k | 0 <= k < |found| :: found[k].solveNumber
  }

  /** Scanning the bests themselves: the last record is the best so far, and
      an attempt is listed exactly when the best first becomes defined there
      or drops below the previous best. */
  lemma {:induction false} ScanFollowsBest(solves: seq<Solve>, best: seq<Option<real>>, xs: seq<Option<real>>, i: nat)
    requires IsRunningMin(best, xs) && |xs| == |solves|
    requires i <= |solves|
    ensures Scan(solves, best, i).0 == LastOr(best[..i])
    ensures forall k :: 0 <= k < i ==> (k + 1 in Numbers(Scan(solves, best, i).1) <==> Beats(best[k], LastOr(best[..k])))
  {
    if i > 0 {
      var k := i - 1;
      ScanFollowsBest(solves, best, xs, k);
      var (last, found) := Scan(solves, best, k);
      var found' := Scan(solves, best, i).1;
      var beats := Beats(best[k], last);
      assert last == LastOr(best[..k]);
      assert Scan(solves, best, i).0 == best[k] by {
        RunningMinStep(best, xs, k);
      }
      assert LastOr(best[..i]) == best[k];
      assert forall n :: n in Numbers(found) ==> 1 <= n <= k by {
        ScanShape(solves, best, k);
      }
      assert Numbers(found') == Numbers(found) + (if beats then {i} else {}) by {
        if beats {
          NumbersCons(Record(i, best[k].value, solves[k].id), found);
        }
      }
      assert best[..i][..k] == best[..k];
    }
  }

  lemma NumbersCons(r: Record, found: seq<Record>)
    ensures Numbers([r] + found) == {r.solveNumber} + Numbers(found)
  {
    var f := [r] + found;
    assert forall k :: 0 <= k < |found| ==> f[k + 1] == found[k];
    assert f[0] == r;
  }

  /** A running best is the fold of `BestStep` over the attempts. */
  lemma RunningMinStep(best: seq<Option<real>>, xs: seq<Option<real>>, k: nat)
    requires IsRunningMin(best, xs) && k < |xs|
    ensures best[k] == BestStep(LastOr(best[..k]), xs[k])
  {
    assert IsRunningMin(best[..k], xs[..k]) by {
      forall i | 0 <= i < k ensures MinOfDefined(best[..k][i], xs[..k][..i + 1]) {
        assert xs[..k][..i + 1] == xs[..i + 1];
      }
    }
    RunningMinExtend(best[..k], xs[..k], xs[k]);
    var b := BestStep(LastOr(best[..k]), xs[k]);
    assert xs[..k] + [xs[k]] == xs[..k + 1];
    assert MinOfDefined((best[..k] + [b])[k], xs[..k + 1]);
    MinOfDefinedUnique(best[k], b, xs[..k + 1]);
  }

  lemma MinOfDefinedUnique(a: Option<real>, b: Option<real>, xs: seq<Option<real>>)
    requires MinOfDefined(a, xs) && MinOfDefined(b, xs)
    ensures a == b
  {
    if a.Some? {
      var i :| 0 <= i < |xs| && xs[i] == a;
      var j :| 0 <= j < |xs| && xs[j] == b;
    }
  }

  /** `xs[k]` is a strict improvement on every defined value before it. */
  predicate Improves(xs: seq<Option<real>>, k: nat)
    requires k < |xs|
  {
    xs[k].Some? && forall j :: 0 <= j < k && xs[j].Some? ==> xs[k].value < xs[j].value
  }

  /** The running best is beaten at `k` exactly when the attempt at `k`
      improves on all earlier ones; the listed value is then that attempt's. */
  lemma BeatsIffImproves(best: seq<Option<real>>, xs: seq<Option<real>>, k: nat)
    requires IsRunningMin(best, xs) && k < |xs|
    ensures Beats(best[k], LastOr(best[..k])) <==> Improves(xs, k)
    ensures Improves(xs, k) ==> best[k] == xs[k]
  {
    RunningMinStep(best, xs, k);
    var c := LastOr(best[..k]);
    if k > 0 {
      assert MinOfDefined(best[k - 1], xs[..k]);
      assert c == best[k - 1];
      assert forall j :: 0 <= j < k ==> xs[..k][j] == xs[j];
      if Improves(xs, k) && c.Some? {
        var j :| 0 <= j < k && xs[..k][j] == c;
      }
    } else {
      assert c.None?;
    }
  }

  /** With the series `calculateRollingAverages` produces, the history lists
      exactly the attempts that set a strictly better value than every
      earlier one, newest first, each with that value. */
  lemma RecordsAreImprovements(solves: seq<Solve>, best: seq<Option<real>>, xs: seq<Option<real>>, k: nat)
    requires IsRunningMin(best, xs) && |xs| == |solves| && k < |solves|
    ensures k + 1 in Numbers(Scan(solves, best, |solves|).1) <==> Improves(xs, k)
    ensures forall m :: 0 <= m < |Scan(solves, best, |solves|).1| && Scan(solves, best, |solves|).1[m].solveNumber == k + 1 ==>
              xs[k] == Some(Scan(solves, best, |solves|).1[m].value)
  {
    ScanFollowsBest(solves, best, xs, |solves|);
    ScanShape(solves, best, |solves|);
    BeatsIffImproves(best, xs, k);
  }

  /** The displayed history: newest first, one line per listed attempt,
      nothing for an unknown filter or missing bests. */
  lemma RecordHistoryShape(solves: seq<Solve>, bests: Option<Rolling>, filter: string)
    ensures var h := RecordHistory(solves, bests, filter);
            && (forall k :: 0 <= k < |h| - 1 ==> h[k].solveNumber > h[k + 1].solveNumber)
            && (forall k :: 0 <= k < |h| ==>
                  1 <= h[k].solveNumber <= |solves| && h[k].solveId == solves[h[k].solveNumber - 1].id)
            && (bests.None? || filter !in {"single", "ao5", "ao12", "ao100"} ==> h == [])
  {
    ScanShape(solves, Series(bests, filter), |solves|);
    if bests.None? || filter !in {"single", "ao5", "ao12", "ao100"} {
      NoSeriesNoRecords(solves, Series(bests, filter), |solves|);
    }
  }

  lemma {:induction false} NoSeriesNoRecords(solves: seq<Solve>, best: seq<Option<real>>, i: nat)
    requires i <= |solves| && best == []
    ensures Scan(solves, best, i) == (None, [])
  {
    if i > 0 {
      NoSeriesNoRecords(solves, best, i - 1);
    }
  }
}
