/**
 Return statistics: Welford's online mean and variance against the two-pass definitions, the
 Sharpe guard, compounding, and independence of the unit of account.
 */
module ReturnStatistics {
  import opened Performance
  import opened Drawdown
  import opened RealArithmetic

  /** The returns the program records: one per equity after the first, unless the last was not positive. */
  function Returns(es: seq<real>): seq<real> {
    if |es| <= 1 then [] else Returns(es[..|es| - 1]) + NewReturn(es[|es| - 2], es[|es| - 1])
  }

  function NewReturn(prev: real, e: real): seq<real> {
    if prev > 0.0 then [ReturnOn(prev, e)] else []
  }

  /** The moments part of the state, on its own. */
  function MomentsOf(rs: seq<real>): Moments {
    if rs == [] then NoReturns() else Record(MomentsOf(rs[..|rs| - 1]), rs[|rs| - 1])
  }

  lemma MomentsSnoc(rs: seq<real>, r: real)
    ensures MomentsOf(rs + [r]) == Record(MomentsOf(rs), r)
  {
    assert (rs + [r])[..|rs|] == rs;
  }

  /** The last equity is the last one seen, started or not. */
  lemma {:induction false} TrackEnds(es: seq<real>)
    requires es != []
    ensures var s := Track(es);
            s.lastEquity == es[|es| - 1] && (s.initialEquity < 0.0 ==> s.lastEquity == s.initialEquity)
    decreases |es|
  {
    if |es| > 1 {
      TrackEnds(es[..|es| - 1]);
    }
  }

  lemma {:induction false} TrackMoments(es: seq<real>)
    ensures Track(es).moments == MomentsOf(Returns(es))
    decreases |es|
  {
    if |es| > 1 {
      var init, e, prev := es[..|es| - 1], es[|es| - 1], es[|es| - 2];
      TrackMoments(init);
      TrackEnds(init);
      if prev > 0.0 {
        MomentsSnoc(Returns(init), ReturnOn(prev, e));
      } else {
        assert Returns(init) + [] == Returns(init);
      }
    } else if |es| == 1 {
      assert Track(es[..0]) == Fresh();
    }
  }

  function Sum(xs: seq<real>): real {
    if xs == [] then 0.0 else Sum(xs[..|xs| - 1]) + xs[|xs| - 1]
  }

  /** The sum of squared deviations from `c`: the second pass of the textbook variance. */
  function SquaredDeviations(xs: seq<real>, c: real): real {
    if xs == [] then 0.0 else SquaredDeviations(xs[..|xs| - 1], c) + Sq(xs[|xs| - 1] - c)
  }

  /** `mean` is the average of `xs`; of no values it is zero. */
  predicate IsMean(xs: seq<real>, mean: real) {
    if xs == [] then mean == 0.0 else Times(mean, |xs| as real) == Sum(xs)
  }

  /** What moving the centre from `c` by `h` adds, for `n` values of sum `s`. */
  function Shift(s: real, n: real, c: real, h: real): real {
    n * Sq(h) - 2.0 * (h * (s - Times(c, n)))
  }

  lemma {:induction false} Recentre(xs: seq<real>, c: real, h: real, to: real)
    requires to == c + h
    ensures SquaredDeviations(xs, to) == SquaredDeviations(xs, c) + Shift(Sum(xs), |xs| as real, c, h)
    decreases |xs|
  {
    if xs == [] {
      assert Shift(0.0, 0.0, c, h) == 0.0;
    } else {
      var init, x := xs[..|xs| - 1], xs[|xs| - 1];
      Recentre(init, c, h, to);
      RecentreStep(Sum(init), Sum(xs), |init| as real, |xs| as real, x, c, h, to);
    }
  }

  lemma RecentreStep(s: real, s': real, n: real, n': real, x: real, c: real, h: real, to: real)
    requires s' == s + x && n' == n + 1.0 && to == c + h
    ensures Shift(s, n, c, h) + Sq(x - to) == Sq(x - c) + Shift(s', n', c, h)
  {
    assert h * ((s + x) - c * (n + 1.0)) == h * (s - c * n) + h * (x - c);
    assert (n + 1.0) * Sq(h) == n * Sq(h) + Sq(h);
    SquareShift(x - c, h);
    assert x - to == x - c - h;
  }

  lemma SquareShift(a: real, h: real)
    ensures Sq(a - h) == Sq(a) - 2.0 * (h * a) + Sq(h)
  {
  }

  /** What Welford's step does, with the division cleared: the mean moves by `h`. */
  lemma RecordMoves(m: Moments, x: real) returns (h: real)
    ensures var t := Record(m, x);
            && t.count == m.count + 1
            && t.meanReturn == m.meanReturn + h
            && Times(h, (m.count + 1) as real) == x - m.meanReturn
            && t.m2 == m.m2 + Times(x - m.meanReturn, x - t.meanReturn)
  {
    h := (x - m.meanReturn) / (m.count + 1) as real;
    DivMul(x - m.meanReturn, (m.count + 1) as real);
  }

  lemma MeanMoves(mean: real, mean': real, h: real, n: real, n': real, s: real, s': real, x: real)
    requires mean' == mean + h && n' == n + 1.0 && Times(h, n') == x - mean
    requires Times(mean, n) == s && s' == s + x
    ensures Times(mean', n') == s'
  {
    assert (mean + h) * n' == mean * n' + h * n';
    assert mean * (n + 1.0) == mean * n + mean;
  }

  lemma DeviationsMove(mean: real, mean': real, h: real, n: real, n': real, s: real, x: real)
    requires mean' == mean + h && n' == n + 1.0 && Times(h, n') == x - mean
    requires Times(mean, n) == s
    ensures Shift(s, n, mean, h) + Sq(x - mean') == Times(x - mean, x - mean')
  {
    var k := n * h;
    assert h * (n + 1.0) == k + h;
    assert x - mean' == k && x - mean == k + h;
    assert n * (h * h) == (n * h) * h;
    assert (k + h) * k == k * k + k * h;
    assert Shift(s, n, mean, h) == n * Sq(h);
    Products(x - mean, x - mean', k + h, k);
  }

  lemma Products(a: real, b: real, c: real, d: real)
    requires a == c && b == d
    ensures Times(a, b) == c * d && Sq(b) == d * d
  {
  }

  /** Welford's step keeps the exact mean and the exact sum of squared deviations. */
  lemma WelfordStep(xs: seq<real>, m: Moments, x: real)
    requires m.count == |xs| && IsMean(xs, m.meanReturn) && m.m2 == SquaredDeviations(xs, m.meanReturn)
    ensures var t, ys := Record(m, x), xs + [x];
            t.count == |ys| && IsMean(ys, t.meanReturn) && t.m2 == SquaredDeviations(ys, t.meanReturn)
  {
    var h := RecordMoves(m, x);
    var mean, mean', n, n', ys := m.meanReturn, Record(m, x).meanReturn, |xs| as real, (|xs| + 1) as real, xs + [x];
    assert ys[..|xs|] == xs;
    assert Times(mean, n) == Sum(xs) by {
      if xs == [] {
        assert mean * 0.0 == 0.0;
      }
    }
    MeanMoves(mean, mean', h, n, n', Sum(xs), Sum(ys), x);
    DeviationsMove(mean, mean', h, n, n', Sum(xs), x);
    Recentre(xs, mean, h, mean');
  }

  lemma {:induction false} WelfordIsTwoPassOf(rs: seq<real>)
    ensures var m := MomentsOf(rs);
            m.count == |rs| && IsMean(rs, m.meanReturn) && m.m2 == SquaredDeviations(rs, m.meanReturn)
  {
    if rs != [] {
      var init, r := rs[..|rs| - 1], rs[|rs| - 1];
      WelfordIsTwoPassOf(init);
      WelfordStep(init, MomentsOf(init), r);
      assert rs == init + [r];
    }
  }

  /** After every curve, `mean_return_` and `m2_` are the exact mean and squared deviations. */
  lemma WelfordIsTwoPass(es: seq<real>)
    ensures var m, rs := Track(es).moments, Returns(es);
            && m.count == |rs|
            && IsMean(rs, m.meanReturn)
            && m.m2 == SquaredDeviations(rs, m.meanReturn)
  {
    TrackMoments(es);
    WelfordIsTwoPassOf(Returns(es));
  }

  ghost predicate AllAre(xs: seq<real>, c: real) {
    forall i :: 0 <= i < |xs| ==> xs[i] == c
  }

  lemma AllAreSnoc(xs: seq<real>, c: real)
    requires xs != []
    ensures AllAre(xs, c) <==> AllAre(xs[..|xs| - 1], c) && xs[|xs| - 1] == c
  {
    var init := xs[..|xs| - 1];
    assert forall i :: 0 <= i < |init| ==> init[i] == xs[i];
  }

  lemma {:induction false} DeviationsVanish(xs: seq<real>, c: real)
    ensures SquaredDeviations(xs, c) >= 0.0
    ensures SquaredDeviations(xs, c) == 0.0 <==> AllAre(xs, c)
    decreases |xs|
  {
    if xs != [] {
      DeviationsVanish(xs[..|xs| - 1], c);
      SquareVanishes(xs[|xs| - 1] - c);
      AllAreSnoc(xs, c);
    }
  }

  lemma {:induction false} SumOfEqual(xs: seq<real>, c: real)
    requires AllAre(xs, c)
    ensures Sum(xs) == Times(c, |xs| as real)
    decreases |xs|
  {
    if xs == [] {
      assert c * 0.0 == 0.0;
    } else {
      AllAreSnoc(xs, c);
      SumOfEqual(xs[..|xs| - 1], c);
      OneMore(c, (|xs| - 1) as real, |xs| as real);
    }
  }

  lemma OneMore(c: real, n: real, n': real)
    requires n' == n + 1.0
    ensures Times(c, n') == Times(c, n) + c
  {
  }

  ghost predicate AllEqual(xs: seq<real>) {
    xs != [] ==> AllAre(xs, xs[0])
  }

  lemma EqualToMean(xs: seq<real>, mean: real)
    requires IsMean(xs, mean)
    ensures AllAre(xs, mean) <==> AllEqual(xs)
  {
    if xs != [] && AllEqual(xs) {
      SumOfEqual(xs, xs[0]);
      Cancel(mean, xs[0], |xs| as real);
    }
  }

  lemma GuardOf(m: Moments, rs: seq<real>)
    requires m.count == |rs| && IsMean(rs, m.meanReturn) && m.m2 == SquaredDeviations(rs, m.meanReturn)
    ensures m.m2 >= 0.0
    ensures m.m2 == 0.0 <==> AllEqual(rs)
    ensures !SharpeUndefined(m) ==> Variance(m) > 0.0 && Times(Variance(m), (|rs| - 1) as real) == m.m2
  {
    DeviationsVanish(rs, m.meanReturn);
    EqualToMean(rs, m.meanReturn);
    if !SharpeUndefined(m) {
      QuotientPositive(m.m2, (m.count - 1) as real);
    }
  }

  /**
   The Sharpe guard, exactly: it suppresses the ratio when fewer than two returns were recorded or
   all of them are equal, and otherwise the sample variance is positive.
   */
  lemma SharpeGuardExact(es: seq<real>)
    ensures var m, rs := Track(es).moments, Returns(es);
            && m.m2 >= 0.0
            && (m.m2 == 0.0 <==> AllEqual(rs))
            && (SharpeUndefined(m) <==> |rs| < 2 || AllEqual(rs))
            && (!SharpeUndefined(m) ==>
                  && Variance(m) > 0.0
                  && Times(Variance(m), (|rs| - 1) as real) == SquaredDeviations(rs, m.meanReturn))
  {
    WelfordIsTwoPass(es);
    GuardOf(Track(es).moments, Returns(es));
  }

  /**
   The total return from the curve alone: measured from the first equity that is not negative, and
   zero if there is none or it is zero.
   */
  lemma TotalReturnValue(neg: seq<real>, es: seq<real>)
    requires forall i :: 0 <= i < |neg| ==> neg[i] < 0.0
    ensures TotalReturn(Track(neg)) == 0.0
    ensures es != [] && es[0] == 0.0 ==> TotalReturn(Track(neg + es)) == 0.0
    ensures es != [] && es[0] > 0.0 ==> TotalReturn(Track(neg + es)) == (es[|es| - 1] - es[0]) / es[0]
  {
    NegativesDoNotStart(neg);
    if es != [] && es[0] >= 0.0 {
      LeadingNegativesIgnored(neg, es);
      TrackFalls(es);
    }
  }

  // Compounding.

  function Grow(p: real, r: real): real { p * (1.0 + r) }

  function Compounded(rs: seq<real>): real {
    if rs == [] then 1.0 else Grow(Compounded(rs[..|rs| - 1]), rs[|rs| - 1])
  }

  /** Every equity but the last is positive, so every return is recorded. */
  ghost predicate NeverLost(es: seq<real>) {
    es != [] && es[0] > 0.0 && forall i :: 0 <= i < |es| - 1 ==> es[i] > 0.0
  }

  lemma {:induction false} CompoundedReturns(es: seq<real>)
    requires NeverLost(es)
    ensures Times(Compounded(Returns(es)), es[0]) == es[|es| - 1]
    decreases |es|
  {
    if |es| > 1 {
      var init, e, prev := es[..|es| - 1], es[|es| - 1], es[|es| - 2];
      CompoundedReturns(init);
      CompoundedSnoc(Returns(init), ReturnOn(prev, e));
      CompoundStep(Compounded(Returns(init)), es[0], prev, e);
    }
  }

  lemma CompoundedSnoc(rs: seq<real>, r: real)
    ensures Compounded(rs + [r]) == Grow(Compounded(rs), r)
  {
    assert (rs + [r])[..|rs|] == rs;
  }

  lemma CompoundStep(p: real, first: real, prev: real, e: real)
    requires prev > 0.0 && Times(p, first) == prev
    ensures Times(Grow(p, ReturnOn(prev, e)), first) == e
  {
    var r := ReturnOn(prev, e);
    DivMul(e - prev, prev);
    assert p * (1.0 + r) * first == (p * first) + r * (p * first);
  }

  lemma GrowthFactor(p: real, first: real, last: real)
    requires first > 0.0
    ensures 1.0 + ReturnOn(first, last) == p <==> Times(p, first) == last
  {
    var r := ReturnOn(first, last);
    DivMul(last - first, first);
    assert r * first == last - first;
    assert (1.0 + r) * first == last;
    Cancel(1.0 + r, p, first);
    assert Times(p, first) == p * first;
  }

  lemma TotalGrowth(es: seq<real>, p: real)
    requires es != [] && es[0] > 0.0
    ensures 1.0 + TotalReturn(Track(es)) == p <==> Times(p, es[0]) == es[|es| - 1]
  {
    assert TotalReturn(Track(es)) == ReturnOn(es[0], es[|es| - 1]) by { TrackFalls(es); }
    GrowthFactor(p, es[0], es[|es| - 1]);
  }

  /** The total return compounds the recorded returns, as long as no equity but the last is lost. */
  lemma TotalReturnCompounds(es: seq<real>)
    requires NeverLost(es)
    ensures 1.0 + TotalReturn(Track(es)) == Compounded(Returns(es))
  {
    CompoundedReturns(es);
    TotalGrowth(es, Compounded(Returns(es)));
  }

  // Compounding on curves that are lost and recover.

  /** Some recorded return is a total loss. */
  ghost predicate HitsZero(es: seq<real>) {
    exists i :: 1 <= i < |es| && es[i - 1] > 0.0 && es[i] == 0.0
  }

  lemma HitsZeroLast(es: seq<real>)
    requires |es| > 1
    ensures HitsZero(es) <==> HitsZero(es[..|es| - 1]) || (es[|es| - 2] > 0.0 && es[|es| - 1] == 0.0)
  {
    var init := es[..|es| - 1];
    if HitsZero(init) {
      var i :| 1 <= i < |init| && init[i - 1] > 0.0 && init[i] == 0.0;
      assert es[i - 1] > 0.0 && es[i] == 0.0;
    }
    if es[|es| - 2] > 0.0 && es[|es| - 1] == 0.0 {
      assert es[(|es| - 1) - 1] > 0.0;
    }
    if HitsZero(es) {
      var i :| 1 <= i < |es| && es[i - 1] > 0.0 && es[i] == 0.0;
      assert i < |es| - 1 ==> init[i - 1] > 0.0 && init[i] == 0.0;
    }
  }

  /**
   The equity last arrived at: the last one, unless the curve is down and stays down, then the one
   at which it went down.
   */
  function Arrival(es: seq<real>): real
    requires es != []
  {
    if |es| == 1 || es[|es| - 2] > 0.0 || es[|es| - 1] > 0.0 then es[|es| - 1] else Arrival(es[..|es| - 1])
  }

  function Recovery(from: real, to: real): real {
    if from == 0.0 then 1.0 else to / from
  }

  /** The product, over the recoveries from zero or below, of the equity after over the equity before. */
  function Recoveries(es: seq<real>): real {
    if |es| <= 1 then 1.0
    else
      var init, e := es[..|es| - 1], es[|es| - 1];
      if es[|es| - 2] <= 0.0 && e > 0.0 then Times(Recoveries(init), Recovery(Arrival(init), e)) else Recoveries(init)
  }

  lemma {:induction false} ArrivalNotZero(es: seq<real>)
    requires es != [] && es[0] > 0.0 && !HitsZero(es)
    ensures Arrival(es) != 0.0
    decreases |es|
  {
    if |es| > 1 {
      HitsZeroLast(es);
      ArrivalNotZero(es[..|es| - 1]);
    }
  }

  lemma Recovers(a: real, g: real, from: real, e: real)
    requires from != 0.0 && Times(a, g) == from
    ensures Times(a, Times(g, Recovery(from, e))) == e
  {
    DivMul(e, from);
    assert a * (g * (e / from)) == (a * g) * (e / from);
  }

  lemma RecordedStep(p: real, first: real, g: real, prev: real, e: real)
    requires prev > 0.0 && Times(Times(p, first), g) == prev
    ensures Times(Times(Grow(p, ReturnOn(prev, e)), first), g) == e
  {
    var r, a := ReturnOn(prev, e), Times(p, first);
    DivMul(e - prev, prev);
    GrowTimes(p, r, first);
    assert (a + r * a) * g == a * g + r * (a * g);
  }

  lemma GrowTimes(p: real, r: real, first: real)
    ensures Times(Grow(p, r), first) == Times(p, first) + r * Times(p, first)
  {
  }

  /** Recorded growth and unrecorded recoveries together lead to the equity last arrived at. */
  lemma {:induction false} GrowthAndRecoveries(es: seq<real>)
    requires es != [] && es[0] > 0.0 && !HitsZero(es)
    ensures Times(Times(Compounded(Returns(es)), es[0]), Recoveries(es)) == Arrival(es)
    decreases |es|
  {
    hide Times, Grow, ReturnOn, Recovery;
    if |es| == 1 {
      OneTimes(es[0]);
    } else {
      var init, e, prev := es[..|es| - 1], es[|es| - 1], es[|es| - 2];
      HitsZeroLast(es);
      GrowthAndRecoveries(init);
      ArrivalNotZero(init);
      if prev > 0.0 {
        assert Arrival(init) == prev;
        CompoundedSnoc(Returns(init), ReturnOn(prev, e));
        RecordedStep(Compounded(Returns(init)), es[0], Recoveries(init), prev, e);
      } else {
        assert Returns(es) == Returns(init);
        if e > 0.0 {
          Recovers(Times(Compounded(Returns(init)), es[0]), Recoveries(init), Arrival(init), e);
        }
      }
    }
  }

  lemma OneTimes(x: real)
    ensures Times(Times(1.0, x), 1.0) == x
  {
  }

  /** After a total loss the compounded return is -1 for good. */
  lemma {:induction false} TotalLossStays(es: seq<real>)
    requires HitsZero(es)
    ensures Compounded(Returns(es)) == 0.0
    decreases |es|
  {
    hide Grow, ReturnOn;
    var init, e, prev := es[..|es| - 1], es[|es| - 1], es[|es| - 2];
    HitsZeroLast(es);
    if prev > 0.0 {
      CompoundedSnoc(Returns(init), ReturnOn(prev, e));
      LossFactor(Compounded(Returns(init)), prev, e);
    } else {
      assert Returns(es) == Returns(init);
    }
    if HitsZero(init) {
      TotalLossStays(init);
    }
  }

  lemma LossFactor(p: real, prev: real, e: real)
    requires prev > 0.0
    ensures p == 0.0 || e == 0.0 ==> Grow(p, ReturnOn(prev, e)) == 0.0
  {
    DivMul(e - prev, prev);
    if e == 0.0 {
      Cancel(ReturnOn(prev, e), -1.0, prev);
    }
  }

  /**
   Exactly when the total return compounds the recorded returns, on every curve from a positive
   start: after a total loss if nothing is left at the end, and otherwise if the unrecorded
   recoveries make up for where the curve last went down. On a curve that ends above zero this says
   that the recoveries cancel out.
   */
  lemma CompoundsIff(es: seq<real>)
    requires es != [] && es[0] > 0.0
    ensures 1.0 + TotalReturn(Track(es)) == Compounded(Returns(es)) <==>
            if HitsZero(es) then es[|es| - 1] == 0.0
            else Times(es[|es| - 1], Recoveries(es)) == Arrival(es)
    ensures es[|es| - 1] > 0.0 ==>
            (1.0 + TotalReturn(Track(es)) == Compounded(Returns(es)) <==> !HitsZero(es) && Recoveries(es) == 1.0)
  {
    hide Times;
    var p, g, last := Compounded(Returns(es)), Recoveries(es), es[|es| - 1];
    TotalGrowth(es, p);
    if HitsZero(es) {
      TotalLossStays(es);
      ZeroTimes(es[0]);
    } else {
      GrowthAndRecoveries(es);
      ArrivalNotZero(es);
      CancelFactor(Times(p, es[0]), last, g);
      if last > 0.0 {
        UnitFactor(last, g);
      }
    }
  }

  lemma UnitFactor(x: real, g: real)
    requires x > 0.0
    ensures Times(x, g) == x <==> g == 1.0
  {
    Cancel(g, 1.0, x);
    assert Times(x, g) == g * x;
  }

  lemma ZeroTimes(x: real)
    ensures Times(0.0, x) == 0.0
  {
  }

  lemma CancelFactor(x: real, y: real, g: real)
    requires Times(x, g) != 0.0
    ensures x == y <==> Times(x, g) == Times(y, g)
  {
    if g > 0.0 {
      Cancel(x, y, g);
    } else if g < 0.0 {
      Cancel(x, y, -g);
      assert x * -g == -(x * g) && y * -g == -(y * g);
    }
  }

  lemma {:induction false} ZeroIsHit(es: seq<real>, i: nat)
    requires i < |es| && es[0] > 0.0 && NeverNegative(es) && es[i] == 0.0
    ensures HitsZero(es)
  {
    if es[i - 1] == 0.0 {
      ZeroIsHit(es, i - 1);
    }
  }

  /**
   On a curve that never goes negative, the total return compounds the recorded returns if and only
   if no equity but the last is lost, or the last one is.
   */
  lemma CompoundsUnlessLost(es: seq<real>)
    requires es != [] && es[0] > 0.0 && NeverNegative(es)
    ensures 1.0 + TotalReturn(Track(es)) == Compounded(Returns(es)) <==> NeverLost(es) || es[|es| - 1] == 0.0
  {
    if NeverLost(es) {
      TotalReturnCompounds(es);
    } else {
      var i :| 0 <= i < |es| - 1 && es[i] <= 0.0;
      ZeroIsHit(es, i);
      CompoundsIff(es);
    }
  }

  /** Once the equity has been zero, compounding breaks: the recovery is never recorded. */
  lemma LossBreaksCompounding()
    ensures var es := [1.0, 0.0, 1.0];
            TotalReturn(Track(es)) == 0.0 && Compounded(Returns(es)) == 0.0
  {
    var es := [1.0, 0.0, 1.0];
    TrackFalls(es);
    assert es[0] > 0.0 && es[1] == 0.0;
    TotalLossStays(es);
  }

  // Change of units.

  function Scale(es: seq<real>, c: real): seq<real> {
    if es == [] then [] else Scale(es[..|es| - 1], c) + [Times(c, es[|es| - 1])]
  }

  function ScaleFalls(f: Falls, c: real): Falls {
    Falls(Times(c, f.peakEquity), Times(c, f.maxDd))
  }

  /** The equities and the absolute drawdown scale; nothing else does. */
  function ScaleStats(s: Stats, c: real): Stats {
    Stats(Times(c, s.initialEquity), Times(c, s.lastEquity), ScaleFalls(s.falls, c), s.maxDdPct, s.moments)
  }

  lemma ScaleFall(f: Falls, e: real, c: real)
    requires c > 0.0
    ensures Fall(ScaleFalls(f, c), Times(c, e)) == ScaleFalls(Fall(f, e), c)
  {
    Scaled(e, f.peakEquity, c);
    Scaled(f.peakEquity, e, c);
    Scaled(f.peakEquity - e, f.maxDd, c);
  }

  lemma ScalePct(pct: Pct, peak: real, e: real, c: real)
    requires c > 0.0 && peak >= 0.0
    ensures FallPct(pct, Times(c, peak), Times(c, e)) == FallPct(pct, peak, e)
  {
    Scaled(e, peak, c);
    Scaled(peak, e, c);
    Scaled(peak - e, 0.0, c);
    if peak > 0.0 {
      ScaledQuotient(peak - e, peak, c);
    }
  }

  lemma ScaleReturn(prev: real, e: real, c: real)
    requires c > 0.0 && prev > 0.0
    ensures Times(c, prev) > 0.0 && ReturnOn(Times(c, prev), Times(c, e)) == ReturnOn(prev, e)
  {
    Scaled(e, prev, c);
    ScaledQuotient(e - prev, prev, c);
  }

  lemma ScaleObserve(s: Stats, e: real, c: real)
    requires c > 0.0 && (s.initialEquity >= 0.0 ==> s.falls.peakEquity >= 0.0)
    ensures Observe(ScaleStats(s, c), Times(c, e)) == ScaleStats(Observe(s, e), c)
  {
    Scaled(s.initialEquity, 0.0, c);
    Scaled(s.lastEquity, 0.0, c);
    if s.initialEquity >= 0.0 {
      ScaleFall(s.falls, e, c);
      ScalePct(s.maxDdPct, s.falls.peakEquity, e, c);
      if s.lastEquity > 0.0 {
        ScaleReturn(s.lastEquity, e, c);
      }
    }
  }

  lemma {:induction false} PeakNotNegative(es: seq<real>)
    ensures Track(es).initialEquity >= 0.0 ==> Track(es).falls.peakEquity >= 0.0
  {
    if es != [] {
      PeakNotNegative(es[..|es| - 1]);
    }
  }

  lemma {:induction false} ScaleTrack(es: seq<real>, c: real)
    requires c > 0.0 && es != []
    ensures Track(Scale(es, c)) == ScaleStats(Track(es), c)
    decreases |es|
  {
    var init, e := es[..|es| - 1], es[|es| - 1];
    TrackSnoc(Scale(init, c), Times(c, e));
    if init == [] {
      assert Scale(init, c) == [] && Track(init) == Fresh();
      assert Times(c, 0.0) == 0.0;
    } else {
      ScaleTrack(init, c);
      PeakNotNegative(init);
      ScaleObserve(Track(init), e, c);
    }
  }

  /**
   Units do not matter: scaling every equity by c > 0 scales the peak and the drawdown and leaves
   the percentage drawdown, the return statistics and the total return alone.
   */
  lemma ScaleInvariance(es: seq<real>, c: real)
    requires c > 0.0 && es != []
    ensures var s, t := Track(es), Track(Scale(es, c));
            && t.falls == Falls(Times(c, s.falls.peakEquity), Times(c, s.falls.maxDd))
            && t.maxDdPct == s.maxDdPct && t.moments == s.moments
            && TotalReturn(t) == TotalReturn(s)
  {
    ScaleTrack(es, c);
    ScaleTotalReturn(Track(es), c);
  }

  lemma ScaleTotalReturn(s: Stats, c: real)
    requires c > 0.0
    ensures TotalReturn(ScaleStats(s, c)) == TotalReturn(s)
  {
    Scaled(s.initialEquity, 0.0, c);
    if s.initialEquity > 0.0 {
      ScaleReturn(s.initialEquity, s.lastEquity, c);
    }
  }
}
