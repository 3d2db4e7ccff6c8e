/** The rolling-statistics engine: the trimmed AoX mean (`calculateAverage`),
    the percentile-trimmed Ao100 mean (`calculateAo100`) and the single
    left-to-right pass that produces every rolling average and running best
    (`calculateRollingAverages`).

    The program encodes a failed attempt as `Infinity` in the values handed to
    the AoX mean and as `null` in those handed to the Ao100 mean; both functions
    classify `null`, `NaN` and non-finite numbers alike as a DNF, so here a
    window holds `Time` values and a DNF is its own constructor. */
module Averages {
  import opened Common
  import opened Solves

  /** One attempt as the statistics see it. */
  datatype Time = Finite(ms: int) | DNF

  function AsTime(s: Solve): Time
  {
    if s.dnf then DNF else Finite(s.time)
  }

  function Times(solves: seq<Solve>): seq<Time>
  {
    seq(|solves|, i requires 0 <= i < |solves| => AsTime(solves[i]))
  }

  // ---------------------------------------------------------------------------
  // Window vocabulary

  function DnfCount(w: seq<Time>): nat
  {
    if |w| == 0 then 0
    else DnfCount(w[..|w| - 1]) + (if w[|w| - 1].DNF? then 1 else 0)
  }

  /** The finite values of a window in window order (`validTimes`). */
  function Finites(w: seq<Time>): seq<int>
  {
    if |w| == 0 then []
    else Finites(w[..|w| - 1]) + (if w[|w| - 1].Finite? then [w[|w| - 1].ms] else [])
  }

  predicate AllFinite(w: seq<Time>)
  {
    forall j :: 0 <= j < |w| ==> w[j].Finite?
  }

  lemma DnfCountSnoc(w: seq<Time>, t: Time)
    ensures DnfCount(w + [t]) == DnfCount(w) + (if t.DNF? then 1 else 0)
  {
    assert (w + [t])[..|w|] == w;
  }

  lemma {:induction false} FinitesFacts(w: seq<Time>)
    ensures |Finites(w)| + DnfCount(w) == |w|
    ensures DnfCount(w) == 0 <==> AllFinite(w)
    ensures AllFinite(w) ==> forall j :: 0 <= j < |w| ==> Finites(w)[j] == w[j].ms
  {
    if |w| > 0 {
      var w' := w[..|w| - 1];
      FinitesFacts(w');
      assert forall j :: 0 <= j < |w'| ==> w'[j] == w[j];
      if w[|w| - 1].Finite? {
        assert Finites(w) == Finites(w') + [w[|w| - 1].ms];
      } else {
        assert Finites(w) == Finites(w');
        assert !AllFinite(w);
      }
    }
  }

  /** The finite values are exactly the values of the finite positions. */
  lemma {:induction false} FinitesMembers(w: seq<Time>, x: int)
    ensures x in Finites(w) <==> exists j :: 0 <= j < |w| && w[j] == Finite(x)
  {
    if |w| > 0 {
      var w' := w[..|w| - 1];
      FinitesMembers(w', x);
      assert forall j :: 0 <= j < |w'| ==> w'[j] == w[j];
      if w[|w| - 1].Finite? {
        assert Finites(w) == Finites(w') + [w[|w| - 1].ms];
      } else {
        assert Finites(w) == Finites(w');
      }
    }
  }

  /** `k` is the first position holding the smallest finite value. */
  predicate IsFirstMin(w: seq<Time>, k: int)
  {
    && 0 <= k < |w| && w[k].Finite?
    && (forall j :: 0 <= j < |w| && w[j].Finite? ==> w[k].ms <= w[j].ms)
    && (forall j :: 0 <= j < k && w[j].Finite? ==> w[k].ms < w[j].ms)
  }

  /** `k` is the first position holding the largest finite value. */
  predicate IsFirstMax(w: seq<Time>, k: int)
  {
    && 0 <= k < |w| && w[k].Finite?
    && (forall j :: 0 <= j < |w| && w[j].Finite? ==> w[j].ms <= w[k].ms)
    && (forall j :: 0 <= j < k && w[j].Finite? ==> w[j].ms < w[k].ms)
  }

  /** `k` is the position of the first DNF. */
  predicate IsFirstDnf(w: seq<Time>, k: int)
  {
    0 <= k < |w| && w[k].DNF? && forall j :: 0 <= j < k ==> w[j].Finite?
  }

  predicate HasFinite(w: seq<Time>)
  {
    exists j :: 0 <= j < |w| && w[j].Finite?
  }

  // ---------------------------------------------------------------------------
  // The extremes scan of calculateAverage

  /** The running maximum: `-Infinity` before any value, `Infinity` once a DNF
      has been seen. */
  datatype Upper = NegInf | Below(v: int) | PosInf

  /** `minIndex`/`minValue` (`None` is `Infinity`) and `maxIndex`/`maxValue`. */
  datatype Extremes = Extremes(minIndex: int, minValue: Option<int>, maxIndex: int, maxValue: Upper)

  /** The first loop of calculateAverage: a DNF claims the maximum once, a
      finite value replaces the minimum only when strictly smaller and the
      maximum only when strictly larger (and no DNF has been seen). */
  function ScanExtremes(w: seq<Time>): Extremes
  {
    if |w| == 0 then Extremes(-1, None, -1, NegInf)
    else
      var e := ScanExtremes(w[..|w| - 1]);
      var i := |w| - 1;
      match w[i]
      case DNF =>
        if e.maxValue != PosInf then e.(maxIndex := i, maxValue := PosInf) else e
      case Finite(t) =>
        var e1 := if e.minValue.None? || t < e.minValue.value then e.(minIndex := i, minValue := Some(t)) else e;
        if e1.maxValue == NegInf || (e1.maxValue.Below? && t > e1.maxValue.v)
        then e1.(maxIndex := i, maxValue := Below(t))
        else e1
  }

  /** The scan finds the first minimum, and as maximum the first DNF if there
      is one, else the first maximum. */
  lemma ScanExtremesCorrect(w: seq<Time>)
    ensures HasFinite(w) ==> IsFirstMin(w, ScanExtremes(w).minIndex)
                             && ScanExtremes(w).minValue == Some(w[ScanExtremes(w).minIndex].ms)
    ensures !HasFinite(w) ==> ScanExtremes(w).minIndex == -1 && ScanExtremes(w).minValue.None?
    ensures !AllFinite(w) ==> IsFirstDnf(w, ScanExtremes(w).maxIndex) && ScanExtremes(w).maxValue == PosInf
    ensures AllFinite(w) && |w| > 0 ==> IsFirstMax(w, ScanExtremes(w).maxIndex)
                                        && ScanExtremes(w).maxValue == Below(w[ScanExtremes(w).maxIndex].ms)
    ensures |w| == 0 ==> ScanExtremes(w).maxValue == NegInf
  {
    ScanMinCorrect(w);
    ScanMaxCorrect(w);
  }

  /** The minimum half of the scan: the first smallest finite value. */
  lemma {:induction false} ScanMinCorrect(w: seq<Time>)
    ensures HasFinite(w) ==> IsFirstMin(w, ScanExtremes(w).minIndex)
                             && ScanExtremes(w).minValue == Some(w[ScanExtremes(w).minIndex].ms)
    ensures !HasFinite(w) ==> ScanExtremes(w).minIndex == -1 && ScanExtremes(w).minValue.None?
  {
    if |w| > 0 {
      var n := |w|;
      var w' := w[..n - 1];
      ScanMinCorrect(w');
      assert forall j :: 0 <= j < n - 1 ==> w'[j] == w[j];
      var e' := ScanExtremes(w');
      var e := ScanExtremes(w);
      match w[n - 1]
      case DNF =>
        assert HasFinite(w) == HasFinite(w');
        if HasFinite(w') {
          assert IsFirstMin(w, e'.minIndex);
        }
      case Finite(t) =>
        assert HasFinite(w);
        if e'.minValue.None? || t < e'.minValue.value {
          assert e.minIndex == n - 1;
          assert IsFirstMin(w, n - 1);
        } else {
          assert HasFinite(w');
          assert e.minIndex == e'.minIndex;
          assert IsFirstMin(w, e'.minIndex);
        }
    }
  }

  /** The maximum half of the scan: the first DNF, else the first largest
      value. */
  lemma {:induction false} ScanMaxCorrect(w: seq<Time>)
    ensures !AllFinite(w) ==> IsFirstDnf(w, ScanExtremes(w).maxIndex) && ScanExtremes(w).maxValue == PosInf
    ensures AllFinite(w) && |w| > 0 ==> IsFirstMax(w, ScanExtremes(w).maxIndex)
                                        && ScanExtremes(w).maxValue == Below(w[ScanExtremes(w).maxIndex].ms)
    ensures |w| == 0 ==> ScanExtremes(w).maxValue == NegInf
  {
    if |w| > 0 {
      var n := |w|;
      var w' := w[..n - 1];
      ScanMaxCorrect(w');
      assert forall j :: 0 <= j < n - 1 ==> w'[j] == w[j];
      var e' := ScanExtremes(w');
      var e := ScanExtremes(w);
      match w[n - 1]
      case DNF =>
        if e'.maxValue != PosInf {
          assert AllFinite(w');
          assert IsFirstDnf(w, n - 1);
        } else {
          assert !AllFinite(w');
        }
      case Finite(t) =>
        assert e.maxIndex == (if e'.maxValue == NegInf || (e'.maxValue.Below? && t > e'.maxValue.v) then n - 1 else e'.maxIndex);
        if !AllFinite(w') {
          assert !AllFinite(w);
          assert e.maxIndex == e'.maxIndex;
          assert IsFirstDnf(w, e'.maxIndex);
        } else {
          assert AllFinite(w);
          if n - 1 == 0 {
            assert IsFirstMax(w, 0);
          } else if t > e'.maxValue.v {
            assert e.maxIndex == n - 1;
            assert IsFirstMax(w, n - 1);
          } else {
            assert e.maxIndex == e'.maxIndex;
            assert IsFirstMax(w, e'.maxIndex);
          }
        }
    }
  }

  // ---------------------------------------------------------------------------
  // The summing loops of calculateAverage

  /** The finite values at every position other than `a` and `b`, in window
      order: what the summing loops add up after skipping the positions they
      remove. */
  function KeptValues(w: seq<Time>, a: int, b: int): seq<int>
  {
    if |w| == 0 then []
    else
      var i := |w| - 1;
      KeptValues(w[..i], a, b) + (if i != a && i != b && w[i].Finite? then [w[i].ms] else [])
  }

  function Removed(w: seq<Time>, k: int): int
  {
    if 0 <= k < |w| && w[k].Finite? then w[k].ms else 0
  }

  function RemovedCount(w: seq<Time>, k: int): nat
  {
    if 0 <= k < |w| && w[k].Finite? then 1 else 0
  }

  /** Skipping positions takes exactly their finite values out of the sum
      and the count. */
  lemma KeptFacts(w: seq<Time>, a: int, b: int)
    requires a != b
    ensures Sum(KeptValues(w, a, b)) + Removed(w, a) + Removed(w, b) == Sum(Finites(w))
    ensures |KeptValues(w, a, b)| + RemovedCount(w, a) + RemovedCount(w, b) == |Finites(w)|
  {
    KeptSum(w, a, b);
    KeptCount(w, a, b);
  }

  lemma {:induction false} KeptSum(w: seq<Time>, a: int, b: int)
    requires a != b
    ensures Sum(KeptValues(w, a, b)) + Removed(w, a) + Removed(w, b) == Sum(Finites(w))
  {
    if |w| > 0 {
      var i := |w| - 1;
      var w' := w[..i];
      KeptSum(w', a, b);
      var keep := i != a && i != b && w[i].Finite?;
      var v := if w[i].Finite? then w[i].ms else 0;
      assert Sum(Finites(w)) == Sum(Finites(w')) + (if w[i].Finite? then w[i].ms else 0) by {
        assert Finites(w) == Finites(w') + (if w[i].Finite? then [w[i].ms] else []);
        SumMaybe(Finites(w'), w[i].Finite?, v);
      }
      assert Sum(KeptValues(w, a, b)) == Sum(KeptValues(w', a, b)) + (if keep then w[i].ms else 0) by {
        assert KeptValues(w, a, b) == KeptValues(w', a, b) + (if keep then [w[i].ms] else []);
        SumMaybe(KeptValues(w', a, b), keep, v);
      }
      RemovedPrefix(w, a);
      RemovedPrefix(w, b);
    }
  }

  lemma {:induction false} KeptCount(w: seq<Time>, a: int, b: int)
    requires a != b
    ensures |KeptValues(w, a, b)| + RemovedCount(w, a) + RemovedCount(w, b) == |Finites(w)|
  {
    if |w| > 0 {
      var i := |w| - 1;
      var w' := w[..i];
      KeptCount(w', a, b);
      assert |Finites(w)| == |Finites(w')| + (if w[i].Finite? then 1 else 0);
      assert |KeptValues(w, a, b)| == |KeptValues(w', a, b)| + (if i != a && i != b && w[i].Finite? then 1 else 0);
      RemovedPrefix(w, a);
      RemovedPrefix(w, b);
    }
  }

  /** Taking the last position off the window changes `Removed` only for that
      position. */
  lemma RemovedPrefix(w: seq<Time>, k: int)
    requires |w| > 0
    ensures var i := |w| - 1;
            Removed(w, k) == Removed(w[..i], k) + (if k == i && w[i].Finite? then w[i].ms else 0)
    ensures var i := |w| - 1;
            RemovedCount(w, k) == RemovedCount(w[..i], k) + (if k == i && w[i].Finite? then 1 else 0)
  {
  }

  /** `slice(1, -1)`. */
  function Middle(s: seq<int>): (r: seq<int>)
  {
    if |s| >= 2 then s[1..|s| - 1] else []
  }

  function Mean(s: seq<int>): real
    requires |s| > 0
  {
    Sum(s) as real / |s| as real
  }

  /** The window the averages look at: the last `count` values. */
  function LastN(times: seq<Time>, count: nat): seq<Time>
    requires count <= |times|
  {
    times[|times| - count..]
  }

  // ---------------------------------------------------------------------------
  // calculateAverage

  /** Average of the last `count` attempts: the plain mean for `count <= 3`,
      otherwise the mean after dropping one fastest and one slowest attempt.
      It is undefined with too few attempts or too many DNFs; the remaining
      guards of the program never fire. */
  function CalculateAverage(times: seq<Time>, count: nat): (r: Option<real>)
    requires count >= 1
    ensures r.None? <==> || |times| < count
                         || DnfCount(LastN(times, count)) > 1
                         || (count <= 3 && DnfCount(LastN(times, count)) == 1)
  {
    if |times| < count then None
    else
      var w := LastN(times, count);
      var e := ScanExtremes(w);
      var dnfCount := DnfCount(w);
      var valid := Finites(w);
      FinitesFacts(w);
      ScanExtremesCorrect(w);
      if dnfCount > 1 then None
      else if count <= 3 then
        if dnfCount == 1 then None
        else if |valid| < count then None
        else Some(Mean(valid))
      else if dnfCount == 1 then
        // the DNF is skipped, and so is the first-occurring fastest value
        if |valid| < count - 1 then None
        else
          var kept := KeptValues(w, e.minIndex, -1);
          assert valid[0] in valid;
          KeptFacts(w, e.minIndex, -1);
          if |kept| != count - 2 then None
          else Some(Mean(kept))
      else
        // the first-occurring minimum and maximum are skipped by index
        if |valid| < count then None
        else
          var kept := KeptValues(w, e.minIndex, e.maxIndex);
          if |kept| != count - 2 then
            // sorted fallback: drop the smallest and the largest value
            var middle := Middle(SortAsc(valid));
            if |middle| != count - 2 then None
            else Some(Mean(middle))
          else Some(Mean(kept))
  }

  /** Only the last `count` attempts matter. */
  lemma AverageUsesLastCount(earlier: seq<Time>, times: seq<Time>, count: nat)
    requires 1 <= count <= |times|
    ensures CalculateAverage(earlier + times, count) == CalculateAverage(times, count)
  {
    assert LastN(earlier + times, count) == LastN(times, count);
  }

  /** Up to three attempts: any DNF makes the average undefined, otherwise
      it is the plain mean of all of them. */
  lemma SmallWindowIsPlainMean(times: seq<Time>, count: nat)
    requires 1 <= count <= 3 && count <= |times|
    ensures AllFinite(LastN(times, count)) ==>
              CalculateAverage(times, count) == Some(Sum(Finites(LastN(times, count))) as real / count as real)
    ensures !AllFinite(LastN(times, count)) ==> CalculateAverage(times, count).None?
  {
    FinitesFacts(LastN(times, count));
  }

  /** Whether the sorted fallback of the no-DNF path runs: exactly when the
      first minimum and the first maximum are the same position, which
      happens exactly when every value of the window is equal. */
  lemma FallbackReachedIffAllEqual(w: seq<Time>)
    requires |w| > 3 && AllFinite(w)
    ensures ScanExtremes(w).minIndex == ScanExtremes(w).maxIndex <==>
              forall j :: 0 <= j < |w| ==> w[j] == w[0]
    ensures |KeptValues(w, ScanExtremes(w).minIndex, ScanExtremes(w).maxIndex)| != |w| - 2 <==>
              forall j :: 0 <= j < |w| ==> w[j] == w[0]
  {
    ScanExtremesCorrect(w);
    FinitesFacts(w);
    var e := ScanExtremes(w);
    assert HasFinite(w) by { assert w[0].Finite?; }
    if e.minIndex == e.maxIndex {
      var k := e.minIndex;
      forall j | 0 <= j < |w| ensures w[j].ms == w[k].ms {
        assert w[k].ms <= w[j].ms <= w[k].ms;
      }
      assert w[0].Finite? && w[0].ms == w[k].ms;
      assert k == 0;
      assert |KeptValues(w, k, -1)| + 1 == |w| by { KeptFacts(w, k, -1); }
      assert KeptValues(w, k, k) == KeptValues(w, k, -1) by {
        KeptSameSkip(w, k);
      }
    } else {
      KeptFacts(w, e.minIndex, e.maxIndex);
      assert w[e.minIndex].ms != w[e.maxIndex].ms;
      assert w[e.minIndex] != w[0] || w[e.maxIndex] != w[0];
    }
  }

  lemma {:induction false} KeptSameSkip(w: seq<Time>, a: int)
    ensures KeptValues(w, a, a) == KeptValues(w, a, -1)
  {
    if |w| > 0 {
      KeptSameSkip(w[..|w| - 1], a);
    }
  }

  /** The reference definition of the trimmed AoX mean: sort the finite values
      and treat a DNF as the slowest value; drop the fastest and the slowest
      and average the middle `count - 2`. */
  function SortedMiddleMean(w: seq<Time>): Option<real>
    requires |w| > 3
  {
    var sorted := SortAsc(Finites(w));
    if DnfCount(w) > 1 then None
    else
      FinitesFacts(w);
      Some(Sum(sorted[1..|w| - 1]) as real / (|w| - 2) as real)
  }

  lemma SumWithoutEnds(s: seq<int>)
    requires |s| >= 2
    ensures Sum(s[1..]) == Sum(s) - s[0]
    ensures Sum(s[1..|s| - 1]) == Sum(s) - s[0] - s[|s| - 1]
  {
    SumDropFirst(s);
    SumDropLast(s[1..]);
    assert s[1..][..|s[1..]| - 1] == s[1..|s| - 1];
  }

  lemma SumDropFirst(s: seq<int>)
    requires |s| >= 1
    ensures Sum(s[1..]) == Sum(s) - s[0]
  {
    assert s == [s[0]] + s[1..];
    SumConcat([s[0]], s[1..]);
    assert Sum([s[0]]) == s[0] by { assert [s[0]][..0] == []; }
  }

  lemma SumDropLast(s: seq<int>)
    requires |s| >= 1
    ensures Sum(s[..|s| - 1]) == Sum(s) - s[|s| - 1]
  {
    assert s == s[..|s| - 1] + [s[|s| - 1]];
    SumAppend(s[..|s| - 1], s[|s| - 1]);
  }

  /** The smallest sorted value is the value at the first minimum, and, when
      there is no DNF, the largest is the value at the first maximum. */
  lemma SortedEndsAreScanExtremes(w: seq<Time>)
    requires HasFinite(w)
    ensures IsFirstMin(w, ScanExtremes(w).minIndex)
    ensures |SortAsc(Finites(w))| > 0
    ensures SortAsc(Finites(w))[0] == w[ScanExtremes(w).minIndex].ms
    ensures AllFinite(w) ==> IsFirstMax(w, ScanExtremes(w).maxIndex) && |SortAsc(Finites(w))| == |w|
    ensures AllFinite(w) ==> SortAsc(Finites(w))[|w| - 1] == w[ScanExtremes(w).maxIndex].ms
  {
    SortedFirstIsScanMin(w);
    if AllFinite(w) {
      SortedLastIsScanMax(w);
    }
  }

  lemma SortedFirstIsScanMin(w: seq<Time>)
    requires HasFinite(w)
    ensures IsFirstMin(w, ScanExtremes(w).minIndex)
    ensures |SortAsc(Finites(w))| > 0
    ensures SortAsc(Finites(w))[0] == w[ScanExtremes(w).minIndex].ms
  {
    ScanMinCorrect(w);
    var valid := Finites(w);
    var sorted := SortAsc(valid);
    var m := w[ScanExtremes(w).minIndex].ms;
    assert m in valid by { FinitesMembers(w, m); }
    SortedEnds(valid, sorted);
    assert sorted[0] <= m;
    assert m <= sorted[0] by {
      FinitesMembers(w, sorted[0]);
      var j :| 0 <= j < |w| && w[j] == Finite(sorted[0]);
    }
  }

  lemma SortedLastIsScanMax(w: seq<Time>)
    requires HasFinite(w) && AllFinite(w)
    ensures IsFirstMax(w, ScanExtremes(w).maxIndex) && |SortAsc(Finites(w))| == |w|
    ensures SortAsc(Finites(w))[|w| - 1] == w[ScanExtremes(w).maxIndex].ms
  {
    assert |Finites(w)| == |w| by { FinitesFacts(w); }
    ScanMaxCorrect(w);
    var valid := Finites(w);
    var sorted := SortAsc(valid);
    var m := w[ScanExtremes(w).maxIndex].ms;
    assert m in valid by { FinitesMembers(w, m); }
    SortedEnds(valid, sorted);
    assert m <= sorted[|w| - 1];
    assert sorted[|w| - 1] <= m by {
      FinitesMembers(w, sorted[|w| - 1]);
      var k :| 0 <= k < |w| && w[k] == Finite(sorted[|w| - 1]);
    }
  }

  /** The one-DNF path averages the finite values without the first minimum. */
  lemma OneDnfPath(times: seq<Time>, count: nat)
    requires 3 < count <= |times| && DnfCount(LastN(times, count)) == 1
    ensures |KeptValues(LastN(times, count), ScanExtremes(LastN(times, count)).minIndex, -1)| == count - 2
    ensures CalculateAverage(times, count)
            == Some(Mean(KeptValues(LastN(times, count), ScanExtremes(LastN(times, count)).minIndex, -1)))
  {
    var w := LastN(times, count);
    FinitesFacts(w);
    ScanExtremesCorrect(w);
    assert Finites(w)[0] in Finites(w);
    FinitesMembers(w, Finites(w)[0]);
    KeptFacts(w, ScanExtremes(w).minIndex, -1);
  }

  /** The no-DNF path averages the values without the first minimum and the
      first maximum, or falls back to the sorted middle when those coincide. */
  lemma NoDnfPath(times: seq<Time>, count: nat)
    requires 3 < count <= |times| && DnfCount(LastN(times, count)) == 0
    ensures var w := LastN(times, count);
            var e := ScanExtremes(w);
            && |Middle(SortAsc(Finites(w)))| == count - 2
            && (e.minIndex != e.maxIndex ==> |KeptValues(w, e.minIndex, e.maxIndex)| == count - 2)
    ensures var w := LastN(times, count);
            var e := ScanExtremes(w);
            CalculateAverage(times, count)
            == if e.minIndex != e.maxIndex then Some(Mean(KeptValues(w, e.minIndex, e.maxIndex)))
               else Some(Mean(Middle(SortAsc(Finites(w)))))
  {
    var w := LastN(times, count);
    FinitesFacts(w);
    FallbackReachedIffAllEqual(w);
    var e := ScanExtremes(w);
    if e.minIndex != e.maxIndex {
      ScanExtremesCorrect(w);
      KeptFacts(w, e.minIndex, e.maxIndex);
    }
  }

  /** With more than three attempts the index-based trimming, the DNF path and
      the sorted fallback all agree with the sorted middle mean: with one DNF
      the DNF and the fastest value are dropped, with none the fastest and the
      slowest are. */
  lemma TrimmedAverageIsSortedMiddle(times: seq<Time>, count: nat)
    requires 3 < count <= |times|
    ensures CalculateAverage(times, count) == SortedMiddleMean(LastN(times, count))
  {
    var w := LastN(times, count);
    FinitesFacts(w);
    if DnfCount(w) == 1 {
      OneDnfPath(times, count);
      OneDnfKeptIsSortedMiddle(w);
    } else if DnfCount(w) == 0 {
      NoDnfPath(times, count);
      var e := ScanExtremes(w);
      if e.minIndex != e.maxIndex {
        NoDnfKeptIsSortedMiddle(w);
      }
    }
  }

  /** With one DNF, the kept values sum to the sorted finite values without
      the smallest one. */
  lemma OneDnfKeptIsSortedMiddle(w: seq<Time>)
    requires |w| > 3 && DnfCount(w) == 1
    ensures |SortAsc(Finites(w))| == |w| - 1
    ensures var kept := KeptValues(w, ScanExtremes(w).minIndex, -1);
            |kept| == |w| - 2 && Sum(kept) == Sum(SortAsc(Finites(w))[1..|w| - 1])
  {
    FinitesFacts(w);
    var valid := Finites(w);
    var sorted := SortAsc(valid);
    var e := ScanExtremes(w);
    assert HasFinite(w) by {
      assert valid[0] in valid;
      FinitesMembers(w, valid[0]);
    }
    SortedEndsAreScanExtremes(w);
    SumPermutation(sorted, valid);
    SumWithoutEnds(sorted);
    KeptFacts(w, e.minIndex, -1);
    assert |sorted| == |w| - 1;
    DropFirstToEnd(sorted, |w| - 1);
  }

  lemma DropFirstToEnd(s: seq<int>, n: int)
    requires 1 <= n == |s|
    ensures s[1..n] == s[1..]
  {
  }

  /** With no DNF and distinct extremes, the kept values sum to the sorted
      values without the smallest and the largest. */
  lemma NoDnfKeptIsSortedMiddle(w: seq<Time>)
    requires |w| > 3 && DnfCount(w) == 0
    requires ScanExtremes(w).minIndex != ScanExtremes(w).maxIndex
    ensures |SortAsc(Finites(w))| == |w|
    ensures var kept := KeptValues(w, ScanExtremes(w).minIndex, ScanExtremes(w).maxIndex);
            |kept| == |w| - 2 && Sum(kept) == Sum(SortAsc(Finites(w))[1..|w| - 1])
  {
    FinitesFacts(w);
    var valid := Finites(w);
    var sorted := SortAsc(valid);
    var e := ScanExtremes(w);
    assert HasFinite(w) by { assert w[0].Finite?; }
    SortedEndsAreScanExtremes(w);
    SumPermutation(sorted, valid);
    SumWithoutEnds(sorted);
    KeptFacts(w, e.minIndex, e.maxIndex);
  }

  // ---------------------------------------------------------------------------
  // calculateAo100

  /** Ao100: with at most five DNFs, sort the finite values, drop the five
      fastest and `max(0, 5 - dnfCount)` slowest, and average the rest. The
      trim count is the constant 5 (`floor(100 * 5 / 100)`). */
  function CalculateAo100(times: seq<Time>): (r: Option<real>)
    ensures r.None? <==> |times| < 100 || DnfCount(LastN(times, 100)) > 5
  {
    if |times| < 100 then None else Ao100OfWindow(LastN(times, 100))
  }

  /** The body of calculateAo100 after `times.slice(-100)`. */
  function Ao100OfWindow(w: seq<Time>): (r: Option<real>)
    requires |w| == 100
    ensures r.None? <==> DnfCount(w) > 5
  {
    var numToRemove := 5;
    var dnfCount := DnfCount(w);
    var valid := Finites(w);
    FinitesFacts(w);
    if dnfCount > numToRemove then None
    else if |valid| < 100 - 2 * numToRemove then None
    else
      var sorted := SortAsc(valid);
      var slowToRemove := Max0(numToRemove - dnfCount);
      var fastToRemove := numToRemove;
      if |sorted| < fastToRemove + slowToRemove then None
      else
        var trimmed := sorted[fastToRemove..|sorted| - slowToRemove];
        if |trimmed| == 0 then None
        else Some(Mean(trimmed))
  }

  /** With `d <= 5` DNFs the Ao100 averages exactly the sorted finite values
      at positions 5 to 94: each DNF takes one slot of the slow-side trim, so
      exactly 90 values remain and none of the later guards fires. */
  lemma Ao100WindowIsSortedMiddle90(w: seq<Time>)
    requires |w| == 100 && DnfCount(w) <= 5
    ensures |Finites(w)| >= 95
    ensures Ao100OfWindow(w) == Some(Sum(SortAsc(Finites(w))[5..95]) as real / 90.0)
  {
    Ao100WindowTrim(w);
    MeanOfNinety(SortAsc(Finites(w))[5..95]);
  }

  /** The guards of calculateAo100 pass and the trimmed slice is 5..95. */
  lemma Ao100WindowTrim(w: seq<Time>)
    requires |w| == 100 && DnfCount(w) <= 5
    ensures |Finites(w)| >= 95
    ensures Ao100OfWindow(w) == Some(Mean(SortAsc(Finites(w))[5..95]))
  {
    var d := DnfCount(w);
    assert |Finites(w)| == 100 - d by { FinitesFacts(w); }
    var sorted := SortAsc(Finites(w));
    Ao100Slice(sorted, d);
  }

  lemma Ao100Slice(sorted: seq<int>, d: int)
    requires 0 <= d <= 5 && |sorted| == 100 - d
    ensures sorted[5..|sorted| - Max0(5 - d)] == sorted[5..95]
  {
  }

  lemma MeanOfNinety(s: seq<int>)
    requires |s| == 90
    ensures Mean(s) == Sum(s) as real / 90.0
  {
  }

  // ---------------------------------------------------------------------------
  // Running bests

  /** `b` is the smallest defined value of `xs`, or `None` when none is
      defined. */
  predicate MinOfDefined(b: Option<real>, xs: seq<Option<real>>)
  {
    && (b.None? <==> forall j :: 0 <= j < |xs| ==> xs[j].None?)
    && (b.Some? ==> exists j :: 0 <= j < |xs| && xs[j] == b)
    && (b.Some? ==> forall j :: 0 <= j < |xs| && xs[j].Some? ==> b.value <= xs[j].value)
  }

  /** `best[i]` is the minimum of the defined values of `xs[..i + 1]`. */
  predicate IsRunningMin(best: seq<Option<real>>, xs: seq<Option<real>>)
  {
    |best| == |xs| && forall i :: 0 <= i < |xs| ==> MinOfDefined(best[i], xs[..i + 1])
  }

  /** One update of a running best: a defined value strictly below the
      current best (or the first defined value) replaces it. */
  function BestStep(current: Option<real>, x: Option<real>): Option<real>
  {
    if x.Some? && (current.None? || x.value < current.value) then x else current
  }

  function LastOr(best: seq<Option<real>>): Option<real>
  {
    if |best| == 0 then None else best[|best| - 1]
  }

  /** The left-to-right fold step keeps the running-minimum invariant. */
  lemma RunningMinExtend(best: seq<Option<real>>, xs: seq<Option<real>>, x: Option<real>)
    requires IsRunningMin(best, xs)
    ensures IsRunningMin(best + [BestStep(LastOr(best), x)], xs + [x])
  {
    var best' := best + [BestStep(LastOr(best), x)];
    var xs' := xs + [x];
    var c := LastOr(best);
    assert MinOfDefined(c, xs) by {
      if |xs| > 0 {
        assert xs[..|xs|] == xs;
      }
    }
    forall i | 0 <= i < |xs'| ensures MinOfDefined(best'[i], xs'[..i + 1]) {
      if i < |xs| {
        assert xs'[..i + 1] == xs[..i + 1];
      } else {
        assert xs'[..i + 1] == xs';
        var b := BestStep(c, x);
        if b.Some? {
          if x.Some? && (c.None? || x.value < c.value) {
            assert xs'[|xs|] == b;
          } else {
            var j :| 0 <= j < |xs| && xs[j] == b;
            assert xs'[j] == b;
          }
        }
      }
    }
  }

  /** A running best never increases once defined. */
  lemma RunningMinNonIncreasing(best: seq<Option<real>>, xs: seq<Option<real>>, i: nat, j: nat)
    requires IsRunningMin(best, xs)
    requires i <= j < |xs| && best[i].Some?
    ensures best[j].Some? && best[j].value <= best[i].value
  {
    assert MinOfDefined(best[i], xs[..i + 1]);
    assert MinOfDefined(best[j], xs[..j + 1]);
    var k :| 0 <= k < i + 1 && xs[..i + 1][k] == best[i];
    assert xs[..j + 1][k] == best[i];
  }

  /** A running best is at most the value at its own position, and is defined
      exactly from the first defined value on. */
  lemma RunningMinBounds(best: seq<Option<real>>, xs: seq<Option<real>>, i: nat)
    requires IsRunningMin(best, xs) && i < |xs|
    ensures xs[i].Some? ==> best[i].Some? && best[i].value <= xs[i].value
    ensures best[i].Some? <==> exists j :: 0 <= j <= i && xs[j].Some?
  {
    assert MinOfDefined(best[i], xs[..i + 1]);
    assert xs[..i + 1][i] == xs[i];
    if best[i].Some? {
      var j :| 0 <= j < i + 1 && xs[..i + 1][j] == best[i];
      assert xs[j].Some?;
    } else {
      forall j | 0 <= j <= i ensures xs[j].None? {
        assert xs[..i + 1][j] == xs[j];
      }
    }
  }

  // ---------------------------------------------------------------------------
  // calculateRollingAverages

  /** The seven parallel series, one entry per attempt. */
  datatype Rolling = Rolling(
    ao5: seq<Option<real>>,
    ao12: seq<Option<real>>,
    ao100: seq<Option<real>>,
    bestSingle: seq<Option<real>>,
    bestAo5: seq<Option<real>>,
    bestAo12: seq<Option<real>>,
    bestAo100: seq<Option<real>>)

  /** The single-attempt series: the duration, or undefined for a DNF. */
  function Singles(ts: seq<Time>): (r: seq<Option<real>>)
    ensures |r| == |ts|
  {
    seq(|ts|, i requires 0 <= i < |ts| => if ts[i].DNF? then None else Some(ts[i].ms as real))
  }

  /** The statistic of the window of `size` attempts ending at position `i`;
      undefined while fewer than `size` attempts exist. */
  function WindowAverage(ts: seq<Time>, i: nat, size: nat): Option<real>
    requires i < |ts| && size >= 1
  {
    if i + 1 < size then None
    else if size == 100 then CalculateAo100(ts[i + 1 - size..i + 1])
    else CalculateAverage(ts[i + 1 - size..i + 1], size)
  }

  /** `xs` holds, position by position, the statistic of the window of
      `size` attempts of `ts` ending there. */
  predicate IsWindowSeries(xs: seq<Option<real>>, ts: seq<Time>, size: nat)
  {
    size >= 1 && |xs| <= |ts| && forall j :: 0 <= j < |xs| ==> xs[j] == WindowAverage(ts, j, size)
  }

  lemma WindowSeriesExtend(xs: seq<Option<real>>, ts: seq<Time>, size: nat, x: Option<real>)
    requires IsWindowSeries(xs, ts, size) && |xs| < |ts|
    requires x == WindowAverage(ts, |xs|, size)
    ensures IsWindowSeries(xs + [x], ts, size)
  {
    var ys := xs + [x];
    forall j | 0 <= j < |ys| ensures ys[j] == WindowAverage(ts, j, size) {
      if j < |xs| {
        assert ys[j] == xs[j];
      }
    }
  }

  /** One left-to-right pass: each average is the statistic of the window
      ending at its position, and each best series is the running minimum of
      its value series. */
  method CalculateRollingAverages(solves: seq<Solve>) returns (r: Rolling)
    ensures |r.ao5| == |r.ao12| == |r.ao100| == |solves|
    ensures |r.bestSingle| == |r.bestAo5| == |r.bestAo12| == |r.bestAo100| == |solves|
    ensures IsWindowSeries(r.ao5, Times(solves), 5)
    ensures IsWindowSeries(r.ao12, Times(solves), 12)
    ensures IsWindowSeries(r.ao100, Times(solves), 100)
    ensures IsRunningMin(r.bestSingle, Singles(Times(solves)))
    ensures IsRunningMin(r.bestAo5, r.ao5)
    ensures IsRunningMin(r.bestAo12, r.ao12)
    ensures IsRunningMin(r.bestAo100, r.ao100)
  {
    var n := |solves|;
    if n == 0 {
      return Rolling([], [], [], [], [], [], []);
    }
    var ts := Times(solves);
    var singles := Singles(ts);
    var ao5, ao12, ao100 := [], [], [];
    var bestSingle, bestAo5, bestAo12, bestAo100 := [], [], [], [];
    var i := 0;
    while i < n
      invariant 0 <= i <= n
      invariant |ao5| == |ao12| == |ao100| == |bestSingle| == i
      invariant IsWindowSeries(ao5, ts, 5)
      invariant IsWindowSeries(ao12, ts, 12)
      invariant IsWindowSeries(ao100, ts, 100)
      invariant IsRunningMin(bestSingle, singles[..i])
      invariant IsRunningMin(bestAo5, ao5)
      invariant IsRunningMin(bestAo12, ao12)
      invariant IsRunningMin(bestAo100, ao100)
    {
      var a5: Option<real> := None;
      if i >= 4 {
        a5 := CalculateAverage(ts[i - 4..i + 1], 5);
      }
      var a12: Option<real> := None;
      if i >= 11 {
        a12 := CalculateAverage(ts[i - 11..i + 1], 12);
      }
      var a100: Option<real> := None;
      if i >= 99 {
        a100 := CalculateAo100(ts[i - 99..i + 1]);
      }
      WindowSeriesExtend(ao5, ts, 5, a5);
      WindowSeriesExtend(ao12, ts, 12, a12);
      WindowSeriesExtend(ao100, ts, 100, a100);

      RunningMinExtend(bestSingle, singles[..i], singles[i]);
      TakeOneMore(singles, i);
      bestSingle := bestSingle + [BestStep(LastOr(bestSingle), singles[i])];

      RunningMinExtend(bestAo5, ao5, a5);
      bestAo5 := bestAo5 + [BestStep(LastOr(bestAo5), a5)];
      ao5 := ao5 + [a5];

      RunningMinExtend(bestAo12, ao12, a12);
      bestAo12 := bestAo12 + [BestStep(LastOr(bestAo12), a12)];
      ao12 := ao12 + [a12];

      RunningMinExtend(bestAo100, ao100, a100);
      bestAo100 := bestAo100 + [BestStep(LastOr(bestAo100), a100)];
      ao100 := ao100 + [a100];

      i := i + 1;
    }
    assert singles[..n] == singles by { TakeAll(singles, n); }
    r := Rolling(ao5, ao12, ao100, bestSingle, bestAo5, bestAo12, bestAo100);
  }

  // ---------------------------------------------------------------------------
  // Worked examples (durations in milliseconds)

  /** [12.0, 9.5, 15.2, 9.5, 11.0] s: the first 9.5 and the 15.2 are dropped. */
  lemma ExampleNoDnf(w: seq<Time>)
    requires w == [Finite(12000), Finite(9500), Finite(15200), Finite(9500), Finite(11000)]
    ensures CalculateAverage(w, 5) == Some(32500.0 / 3.0)
  {
    assert LastN(w, 5) == w;
    assert DnfCount(w) == 0 by {
      FinitesFacts(w);
      assert AllFinite(w);
    }
    ExampleNoDnfScan(w);
    assert Sum([12000, 9500, 11000]) == 32500 by {
      assert [12000, 9500, 11000][..2] == [12000, 9500];
      assert [12000, 9500][..1] == [12000];
      assert [12000][..0] == [];
    }
    NoDnfPath(w, 5);
  }

  /** [12.0, DNF, 15.2, 9.5, 11.0] s: the DNF and the 9.5 are dropped. */
  lemma ExampleOneDnf(w: seq<Time>)
    requires w == [Finite(12000), DNF, Finite(15200), Finite(9500), Finite(11000)]
    ensures CalculateAverage(w, 5) == Some(38200.0 / 3.0)
  {
    assert LastN(w, 5) == w;
    assert DnfCount(w) == 1 by {
      Prefixes(w);
      DnfCountSnoc([], w[0]);
      DnfCountSnoc(w[..1], w[1]);
      DnfCountSnoc(w[..2], w[2]);
      DnfCountSnoc(w[..3], w[3]);
      DnfCountSnoc(w[..4], w[4]);
    }
    ExampleOneDnfScan(w);
    assert Sum([12000, 15200, 11000]) == 38200 by {
      assert [12000, 15200, 11000][..2] == [12000, 15200];
      assert [12000, 15200][..1] == [12000];
      assert [12000][..0] == [];
    }
    OneDnfPath(w, 5);
  }

  lemma ExampleNoDnfScan(w: seq<Time>)
    requires w == [Finite(12000), Finite(9500), Finite(15200), Finite(9500), Finite(11000)]
    ensures ScanExtremes(w) == Extremes(1, Some(9500), 2, Below(15200))
    ensures KeptValues(w, 1, 2) == [12000, 9500, 11000]
  {
    Prefixes(w);
    assert ScanExtremes(w[..1]) == Extremes(0, Some(12000), 0, Below(12000));
    assert ScanExtremes(w[..2]) == Extremes(1, Some(9500), 0, Below(12000));
    assert ScanExtremes(w[..3]) == Extremes(1, Some(9500), 2, Below(15200));
    assert ScanExtremes(w[..4]) == Extremes(1, Some(9500), 2, Below(15200));
    assert KeptValues(w[..1], 1, 2) == [12000];
    assert KeptValues(w[..2], 1, 2) == [12000];
    assert KeptValues(w[..3], 1, 2) == [12000];
    assert KeptValues(w[..4], 1, 2) == [12000, 9500];
  }

  lemma ExampleOneDnfScan(w: seq<Time>)
    requires w == [Finite(12000), DNF, Finite(15200), Finite(9500), Finite(11000)]
    ensures ScanExtremes(w) == Extremes(3, Some(9500), 1, PosInf)
    ensures KeptValues(w, 3, -1) == [12000, 15200, 11000]
  {
    Prefixes(w);
    assert ScanExtremes(w[..1]) == Extremes(0, Some(12000), 0, Below(12000));
    assert ScanExtremes(w[..2]) == Extremes(0, Some(12000), 1, PosInf);
    assert ScanExtremes(w[..3]) == Extremes(0, Some(12000), 1, PosInf);
    assert ScanExtremes(w[..4]) == Extremes(3, Some(9500), 1, PosInf);
    assert KeptValues(w[..1], 3, -1) == [12000];
    assert KeptValues(w[..2], 3, -1) == [12000];
    assert KeptValues(w[..3], 3, -1) == [12000, 15200];
    assert KeptValues(w[..4], 3, -1) == [12000, 15200];
  }

  /** The prefixes of a five-attempt window, each one attempt longer. */
  lemma Prefixes(w: seq<Time>)
    requires |w| == 5
    ensures w[..1] == [w[0]] && w[..2] == w[..1] + [w[1]] && w[..3] == w[..2] + [w[2]]
    ensures w[..4] == w[..3] + [w[3]] && w == w[..4] + [w[4]]
  {
  }
}
