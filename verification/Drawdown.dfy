/**
 Drawdown: the streaming peak, largest fall and largest percentage fall against their
 definitions over the whole equity curve.
 */
module Drawdown {
  import opened Performance
  import opened RealArithmetic

  /** Not started: the program re-initialises on the next equity. */
  predicate Unstarted(s: Stats) {
    s.initialEquity < 0.0 && s.falls.maxDd == 0.0 && s.maxDdPct == Finite(0.0) && s.moments == NoReturns()
  }

  lemma {:induction false} NegativesDoNotStart(es: seq<real>)
    requires forall i :: 0 <= i < |es| ==> es[i] < 0.0
    ensures Unstarted(Track(es))
  {
    if es != [] {
      NegativesDoNotStart(es[..|es| - 1]);
    }
  }

  /** Leading negative equities leave no trace: the curve starts at its first non-negative one. */
  lemma {:induction false} LeadingNegativesIgnored(neg: seq<real>, es: seq<real>)
    requires forall i :: 0 <= i < |neg| ==> neg[i] < 0.0
    requires es != []
    ensures Track(neg + es) == Track(es)
    decreases |es|
  {
    var init := es[..|es| - 1];
    assert (neg + es)[..|neg + es| - 1] == neg + init;
    if init == [] {
      assert neg + init == neg;
      NegativesDoNotStart(neg);
    } else {
      LeadingNegativesIgnored(neg, init);
    }
  }

  /** The drawdown part of the state, on its own. */
  function FallsOf(es: seq<real>): Falls
    requires es != []
  {
    if |es| == 1 then Unmoved(es[0]) else Fall(FallsOf(es[..|es| - 1]), es[|es| - 1])
  }

  lemma {:induction false} TrackFalls(es: seq<real>)
    requires es != [] && es[0] >= 0.0
    ensures var s := Track(es);
            s.initialEquity == es[0] && s.lastEquity == es[|es| - 1] && s.falls == FallsOf(es)
    decreases |es|
  {
    var init := es[..|es| - 1];
    if init == [] {
      assert Track(init) == Fresh();
    } else {
      TrackFalls(init);
    }
  }

  /** The highest equity so far. */
  function PeakOf(es: seq<real>): (m: real)
    requires es != []
    ensures m in es && forall i :: 0 <= i < |es| ==> es[i] <= m
  {
    if |es| == 1 then es[0]
    else
      var init, e := es[..|es| - 1], es[|es| - 1];
      var m := PeakOf(init);
      assert forall i :: 0 <= i < |init| ==> init[i] == es[i];
      if e > m then e else m
  }

  /** How far the equity at time `j` is below that at time `i`. */
  function FallBetween(es: seq<real>, i: nat, j: nat): real
    requires i < |es| && j < |es|
  {
    es[i] - es[j]
  }

  /** `d` is the largest fall from any equity to a later one. */
  ghost predicate IsMaxFall(es: seq<real>, d: real) {
    && (forall i, j :: 0 <= i <= j < |es| ==> FallBetween(es, i, j) <= d)
    && (exists i, j :: 0 <= i <= j < |es| && FallBetween(es, i, j) == d)
  }

  lemma ExtendMaxFall(es: seq<real>, d: real)
    requires |es| > 1 && IsMaxFall(es[..|es| - 1], d)
    ensures var fall := PeakOf(es[..|es| - 1]) - es[|es| - 1];
            d >= 0.0 && IsMaxFall(es, if fall > d then fall else d)
  {
    var init, last := es[..|es| - 1], |es| - 1;
    var fall := PeakOf(init) - es[last];
    assert FallBetween(init, 0, 0) <= d;
    forall i, j | 0 <= i <= j < |es|
      ensures FallBetween(es, i, j) <= if fall > d then fall else d
    {
      if j < last {
        assert FallBetween(init, i, j) <= d;
      } else if i < last {
        assert init[i] <= PeakOf(init);
      }
    }
    if fall > d {
      var k :| 0 <= k < |init| && init[k] == PeakOf(init);
      assert FallBetween(es, k, last) == fall;
    } else {
      var i, j :| 0 <= i <= j < |init| && FallBetween(init, i, j) == d;
      assert FallBetween(es, i, j) == d;
    }
  }

  lemma {:induction false} FallsPeak(es: seq<real>)
    requires es != []
    ensures FallsOf(es).peakEquity == PeakOf(es)
    decreases |es|
  {
    if |es| > 1 {
      FallsPeak(es[..|es| - 1]);
    }
  }

  lemma {:induction false} FallsAreMaxima(es: seq<real>)
    requires es != []
    ensures IsMaxFall(es, FallsOf(es).maxDd)
    decreases |es|
  {
    if |es| == 1 {
      assert FallBetween(es, 0, 0) == FallsOf(es).maxDd;
    } else {
      var init, e := es[..|es| - 1], es[|es| - 1];
      var d, fall := FallsOf(init).maxDd, PeakOf(init) - e;
      FallsAreMaxima(init);
      ExtendMaxFall(es, d);
      FallsPeak(init);
      assert FallsOf(es).maxDd == if fall > d then fall else d;
    }
  }

  /** `peak_equity_` is the running maximum and `max_dd_` the largest fall between any two times. */
  lemma DrawdownIsBatch(es: seq<real>)
    requires es != [] && es[0] >= 0.0
    ensures var f := Track(es).falls;
            f.peakEquity == PeakOf(es) && IsMaxFall(es, f.maxDd)
  {
    TrackFalls(es);
    FallsPeak(es);
    FallsAreMaxima(es);
  }

  // The percentage.

  /** The percentage part of the state, on its own. */
  function PctOf(es: seq<real>): Pct
    requires es != []
  {
    if |es| == 1 then Finite(0.0)
    else FallPct(PctOf(es[..|es| - 1]), PeakOf(es[..|es| - 1]), es[|es| - 1])
  }

  lemma {:induction false} TrackPct(es: seq<real>)
    requires es != [] && es[0] >= 0.0
    ensures Track(es).maxDdPct == PctOf(es)
    decreases |es|
  {
    var init := es[..|es| - 1];
    if init == [] {
      assert Track(init) == Fresh();
    } else {
      TrackPct(init);
      DrawdownIsBatch(init);
      TrackFalls(init);
    }
  }

  /** The fall from a peak in proportion to it; from no peak at all there is no fall. */
  function RelativeFall(peak: real, equity: real): real {
    if peak > 0.0 then (peak - equity) / peak else 0.0
  }

  /** The fall at each time, relative to the peak of its time. */
  function RelativeFalls(es: seq<real>): (fs: seq<real>)
    requires es != []
    ensures |fs| == |es|
    decreases |es|
  {
    if |es| == 1 then [RelativeFall(es[0], es[0])]
    else RelativeFalls(es[..|es| - 1]) + [RelativeFall(PeakOf(es), es[|es| - 1])]
  }

  ghost predicate IsMax(xs: seq<real>, d: real) {
    d in xs && forall i :: 0 <= i < |xs| ==> xs[i] <= d
  }

  lemma ExtendMax(xs: seq<real>, d: real, x: real)
    requires IsMax(xs, d)
    ensures IsMax(xs + [x], if x > d then x else d)
  {
    var i :| 0 <= i < |xs| && xs[i] == d;
    assert (xs + [x])[i] == d && (xs + [x])[|xs|] == x;
  }

  lemma NoFall(peak: real)
    ensures RelativeFall(peak, peak) == 0.0
  {
  }

  /** Some equity falls below a peak that is still zero. */
  ghost predicate SinksFromZero(es: seq<real>) {
    exists j :: 0 <= j < |es| && es[j] < 0.0 && forall i :: 0 <= i < j ==> es[i] <= 0.0
  }

  lemma SinksSnoc(es: seq<real>, e: real)
    ensures SinksFromZero(es + [e]) <==>
            SinksFromZero(es) || (e < 0.0 && forall i :: 0 <= i < |es| ==> es[i] <= 0.0)
  {
    var fs := es + [e];
    if SinksFromZero(es) {
      var j :| 0 <= j < |es| && es[j] < 0.0 && forall i :: 0 <= i < j ==> es[i] <= 0.0;
      assert fs[j] < 0.0;
    }
    if e < 0.0 && forall i :: 0 <= i < |es| ==> es[i] <= 0.0 {
      assert fs[|es|] < 0.0;
    }
    if SinksFromZero(fs) {
      var j :| 0 <= j < |fs| && fs[j] < 0.0 && forall i :: 0 <= i < j ==> fs[i] <= 0.0;
      assert forall i :: 0 <= i < |es| && i < j ==> es[i] == fs[i];
      assert j < |es| ==> es[j] == fs[j];
    }
  }

  /** The last equity sinks from zero exactly if it is negative and the peak before it is zero. */
  lemma SinksLast(es: seq<real>)
    requires |es| > 1 && es[0] >= 0.0
    ensures var init := es[..|es| - 1];
            PeakOf(init) >= 0.0 &&
            (SinksFromZero(es) <==> SinksFromZero(init) || (es[|es| - 1] < 0.0 && PeakOf(init) == 0.0))
  {
    var init, e := es[..|es| - 1], es[|es| - 1];
    assert es == init + [e];
    SinksSnoc(init, e);
    assert PeakOf(init) >= init[0];
  }

  lemma {:induction false} PctOverflow(es: seq<real>)
    requires es != [] && es[0] >= 0.0
    ensures PctOf(es).Infinite? <==> SinksFromZero(es)
    decreases |es|
  {
    if |es| > 1 {
      PctOverflow(es[..|es| - 1]);
      SinksLast(es);
    }
  }

  lemma {:induction false} PctIsMaximum(es: seq<real>)
    requires es != [] && es[0] >= 0.0 && !SinksFromZero(es)
    ensures PctOf(es).Finite? && PctOf(es).value >= 0.0 && IsMax(RelativeFalls(es), PctOf(es).value)
    decreases |es|
  {
    if |es| == 1 {
      NoFall(es[0]);
    } else {
      var init, e := es[..|es| - 1], es[|es| - 1];
      SinksLast(es);
      PctIsMaximum(init);
      assert PeakOf(es) == if e > PeakOf(init) then e else PeakOf(init);
      ExtendMax(RelativeFalls(init), PctOf(init).value, RelativeFall(PeakOf(es), e));
      if e > PeakOf(init) {
        NoFall(e);
      }
    }
  }

  /**
   `max_dd_pct_` overflows to an infinity exactly when an equity goes negative before any has been
   positive, and is otherwise the largest fall relative to the peak of its time.
   */
  lemma PctIsPeakRelative(es: seq<real>)
    requires es != [] && es[0] >= 0.0
    ensures var pct := Track(es).maxDdPct;
            && (pct.Infinite? <==> SinksFromZero(es))
            && (pct.Finite? ==> IsMax(RelativeFalls(es), pct.value))
  {
    TrackPct(es);
    PctOverflow(es);
    if !SinksFromZero(es) {
      PctIsMaximum(es);
    }
  }

  // The percentage against all pairs of times.

  /** The relative fall from time `i` to time `j`. */
  function PairFall(es: seq<real>, i: nat, j: nat): real
    requires i < |es| && j < |es|
  {
    RelativeFall(es[i], es[j])
  }

  /** `b` is the largest relative fall from any positive equity to a later one. */
  ghost predicate IsPairMax(es: seq<real>, b: real) {
    && (forall i, j :: 0 <= i <= j < |es| && es[i] > 0.0 ==> PairFall(es, i, j) <= b)
    && (exists i, j :: 0 <= i <= j < |es| && es[i] > 0.0 && PairFall(es, i, j) == b)
  }

  lemma {:induction false} PairsBelowPeaks(es: seq<real>, i: nat, j: nat)
    requires i <= j < |es| && es[i] > 0.0 && es[j] >= 0.0
    ensures PairFall(es, i, j) <= RelativeFalls(es)[j]
    decreases |es|
  {
    if j < |es| - 1 {
      PairsBelowPeaks(es[..|es| - 1], i, j);
    } else if |es| > 1 {
      RelativeFallGrows(es[j], es[i], PeakOf(es));
    }
  }

  /** The fall at time `j` is the pair fall from the time of the peak. */
  lemma {:induction false} PeaksArePairs(es: seq<real>, j: nat) returns (i: nat)
    requires j < |es| && es[0] > 0.0
    ensures i <= j && es[i] > 0.0 && PairFall(es, i, j) == RelativeFalls(es)[j]
    ensures forall k :: 0 <= k <= j ==> es[k] <= es[i]
    decreases |es|
  {
    if j < |es| - 1 {
      var init := es[..|es| - 1];
      i := PeaksArePairs(init, j);
      assert forall k :: 0 <= k <= j ==> es[k] == init[k];
    } else {
      var m := PeakOf(es);
      assert es[0] <= m;
      i :| 0 <= i < |es| && es[i] == m;
    }
  }

  /** No pair falls further than from `i` to `j`. */
  ghost predicate Deepest(es: seq<real>, i: nat, j: nat)
    requires i < |es| && j < |es|
  {
    forall a, b :: 0 <= a <= b < |es| && es[a] > 0.0 ==> PairFall(es, a, b) <= PairFall(es, i, j)
  }

  ghost predicate OnlyPeakBefore(es: seq<real>, i: nat, j: nat)
    requires i < |es| && j < |es|
  {
    forall k :: 0 <= k <= j && es[k] > 0.0 ==> es[k] == es[i]
  }

  ghost predicate NeverNegative(es: seq<real>) {
    forall k :: 0 <= k < |es| ==> es[k] >= 0.0
  }

  /** A deepest pair before whose end all positive equities are the same. */
  ghost predicate DeepestFromPeak(es: seq<real>) {
    exists i, j :: 0 <= i <= j < |es| && es[i] > 0.0 && Deepest(es, i, j) && OnlyPeakBefore(es, i, j)
  }

  lemma PeakTimeOf(es: seq<real>, pct: real) returns (i: nat, j: nat)
    requires es != [] && es[0] > 0.0 && IsMax(RelativeFalls(es), pct)
    ensures i <= j < |es| && es[i] > 0.0 && PairFall(es, i, j) == pct == RelativeFalls(es)[j]
    ensures forall k :: 0 <= k <= j ==> es[k] <= es[i]
  {
    j :| 0 <= j < |RelativeFalls(es)| && RelativeFalls(es)[j] == pct;
    i := PeaksArePairs(es, j);
  }

  lemma BatchFromDeepest(es: seq<real>, pct: real)
    requires es != [] && es[0] > 0.0 && IsMax(RelativeFalls(es), pct) && DeepestFromPeak(es)
    ensures IsPairMax(es, pct)
  {
    hide RelativeFalls, PairFall;
    var falls := RelativeFalls(es);
    var i, j :| 0 <= i <= j < |es| && es[i] > 0.0 && Deepest(es, i, j) && OnlyPeakBefore(es, i, j);
    var k := PeaksArePairs(es, j);
    SameStart(es, i, k, j);
    assert PairFall(es, i, j) == falls[j] <= pct;
    var a, b := PeakTimeOf(es, pct);
    assert PairFall(es, a, b) <= PairFall(es, i, j);
    assert PairFall(es, i, j) == pct;
  }

  lemma SameStart(es: seq<real>, i: nat, k: nat, j: nat)
    requires i < |es| && k < |es| && j < |es| && es[i] == es[k]
    ensures PairFall(es, i, j) == PairFall(es, k, j)
  {
  }

  lemma DeepestFromBatch(es: seq<real>, pct: real)
    requires es != [] && es[0] > 0.0 && !NeverNegative(es) && IsMax(RelativeFalls(es), pct) && IsPairMax(es, pct)
    ensures DeepestFromPeak(es)
  {
    hide RelativeFalls, PairFall;
    var i, j := PeakTimeOf(es, pct);
    assert Deepest(es, i, j);
    DeepestEndsBelowZero(es, i, j);
    forall k | 0 <= k <= j && es[k] > 0.0
      ensures es[k] == es[i]
    {
      assert PairFall(es, k, j) <= PairFall(es, i, j);
      LowerStartFallsDeeper(es, k, i, j);
    }
    assert OnlyPeakBefore(es, i, j);
  }

  /** A fall below zero is deeper than any other. */
  lemma DeepestEndsBelowZero(es: seq<real>, i: nat, j: nat)
    requires i <= j < |es| && es[0] > 0.0 && es[i] > 0.0 && !NeverNegative(es) && Deepest(es, i, j)
    ensures es[j] < 0.0
  {
    var k :| 0 <= k < |es| && es[k] < 0.0;
    assert PairFall(es, 0, k) <= PairFall(es, i, j);
    RelativeFallBelowOne(es[0], es[k]);
    RelativeFallBelowOne(es[i], es[j]);
  }

  lemma LowerStartFallsDeeper(es: seq<real>, k: nat, i: nat, j: nat)
    requires k < |es| && i < |es| && j < |es| && 0.0 < es[k] <= es[i] && es[j] < 0.0
    requires PairFall(es, k, j) <= PairFall(es, i, j)
    ensures es[k] == es[i]
  {
    RelativeFallShrinks(es[j], es[k], es[i]);
  }

  lemma NeverSinks(es: seq<real>)
    requires es != [] && es[0] > 0.0
    ensures !SinksFromZero(es)
  {
  }

  ghost predicate AllPositive(es: seq<real>) {
    forall k :: 0 <= k < |es| ==> es[k] > 0.0
  }

  lemma {:induction false} FallsWithinOne(es: seq<real>, j: nat)
    requires j < |es| && es[0] > 0.0 && NeverNegative(es)
    ensures RelativeFalls(es)[j] <= 1.0 && (RelativeFalls(es)[j] < 1.0 <==> es[j] > 0.0)
  {
    var i := PeaksArePairs(es, j);
    RelativeFallBelowOne(es[i], es[j]);
  }

  /**
   On a curve that never goes negative, `max_dd_pct_` is the largest relative fall between any two
   times and lies in [0, 1]; it stays below 1 exactly if no equity is zero.
   */
  lemma PctIsBatch(es: seq<real>)
    requires es != [] && es[0] > 0.0 && NeverNegative(es)
    ensures var pct := Track(es).maxDdPct;
            && pct.Finite? && 0.0 <= pct.value <= 1.0
            && IsPairMax(es, pct.value)
            && (pct.value < 1.0 <==> AllPositive(es))
  {
    hide RelativeFalls, RelativeFall, PctOf;
    NeverSinks(es);
    TrackPct(es);
    PctIsMaximum(es);
    var pct, falls := PctOf(es).value, RelativeFalls(es);
    forall j | 0 <= j < |es|
      ensures falls[j] <= 1.0 && (falls[j] < 1.0 <==> es[j] > 0.0)
    {
      FallsWithinOne(es, j);
    }
    forall i, j | 0 <= i <= j < |es| && es[i] > 0.0
      ensures PairFall(es, i, j) <= pct
    {
      PairsBelowPeaks(es, i, j);
      assert falls[j] <= pct;
    }
    var a, b := PeakTimeOf(es, pct);
    assert PairFall(es, a, b) == pct;
  }

  /**
   From a positive start, `max_dd_pct_` is the largest relative fall between any two times if and
   only if no equity is negative, or some deepest fall has only the peak to fall from.
   */
  lemma PctIsBatchIff(es: seq<real>)
    requires es != [] && es[0] > 0.0
    ensures var pct := Track(es).maxDdPct;
            pct.Finite? && (IsPairMax(es, pct.value) <==> NeverNegative(es) || DeepestFromPeak(es))
  {
    hide IsMax, RelativeFalls, IsPairMax;
    NeverSinks(es);
    PctIsPeakRelative(es);
    if NeverNegative(es) {
      PctIsBatch(es);
    } else if DeepestFromPeak(es) {
      BatchFromDeepest(es, Track(es).maxDdPct.value);
    } else if IsPairMax(es, Track(es).maxDdPct.value) {
      DeepestFromBatch(es, Track(es).maxDdPct.value);
    }
  }

  /** Below zero the two can differ: the program compares with the peak only. */
  lemma PctDiffersBelowZero()
    ensures var es := [1.0, 2.0, -2.0];
            Track(es).maxDdPct == Finite(2.0) && PairFall(es, 0, 2) == 3.0
  {
    var es := [1.0, 2.0, -2.0];
    assert es[..2] == [1.0, 2.0] && es[..2][..1] == [1.0];
    TrackPct(es);
    assert PctOf([1.0, 2.0]) == Finite(0.0) && PeakOf([1.0, 2.0]) == 2.0;
  }
}
