/**
 Streaming performance statistics: drawdown and the mean and variance of returns, updated one
 equity at a time without keeping the curve. `double` is modelled by `real`.
 */
module Performance {
  import opened Ledgers
  import opened PortfolioEngine

  /** A percentage drawdown; the program's division by a peak of zero gives an infinity. */
  datatype Pct = Finite(value: real) | Infinite

  datatype Falls = Falls(peakEquity: real, maxDd: real)

  datatype Moments = Moments(count: nat, meanReturn: real, m2: real)

  datatype Stats = Stats(initialEquity: real, lastEquity: real, falls: Falls, maxDdPct: Pct, moments: Moments)

  function Unmoved(equity: real): Falls {
    Falls(equity, 0.0)
  }

  function NoReturns(): Moments {
    Moments(0, 0.0, 0.0)
  }

  function Fresh(): Stats {
    Stats(-1.0, 0.0, Unmoved(0.0), Finite(0.0), NoReturns())
  }

  /** The larger of `pct` and `dd / peak`: 0/0 compares false and x/0 is an infinity. */
  function Deepen(pct: Pct, dd: real, peak: real): Pct {
    if peak == 0.0 then (if dd > 0.0 then Infinite else pct)
    else if pct.Finite? && dd / peak > pct.value then Finite(dd / peak)
    else pct
  }

  function Fall(f: Falls, equity: real): Falls {
    if equity > f.peakEquity then f.(peakEquity := equity)
    else
      var dd := f.peakEquity - equity;
      f.(maxDd := if dd > f.maxDd then dd else f.maxDd)
  }

  function FallPct(pct: Pct, peak: real, equity: real): Pct {
    if equity > peak then pct else Deepen(pct, peak - equity, peak)
  }

  function ReturnOn(prev: real, equity: real): real
    requires prev != 0.0
  {
    (equity - prev) / prev
  }

  /** One Welford step. */
  function Record(m: Moments, ret: real): Moments {
    var delta := ret - m.meanReturn;
    var mean := m.meanReturn + delta / (m.count + 1) as real;
    Moments(m.count + 1, mean, m.m2 + delta * (ret - mean))
  }

  function Observe(s: Stats, equity: real): Stats {
    if s.initialEquity < 0.0 then
      s.(initialEquity := equity, lastEquity := equity, falls := s.falls.(peakEquity := equity))
    else
      Stats(s.initialEquity, equity, Fall(s.falls, equity), FallPct(s.maxDdPct, s.falls.peakEquity, equity),
            if s.lastEquity > 0.0 then Record(s.moments, ReturnOn(s.lastEquity, equity)) else s.moments)
  }

  /** The statistics after a whole equity curve. */
  function Track(es: seq<real>): Stats {
    if es == [] then Fresh() else Observe(Track(es[..|es| - 1]), es[|es| - 1])
  }

  lemma TrackSnoc(es: seq<real>, e: real)
    ensures Track(es + [e]) == Observe(Track(es), e)
  {
    assert (es + [e])[..|es|] == es;
  }

  function TotalReturn(s: Stats): real {
    if s.initialEquity <= 0.0 then 0.0 else ReturnOn(s.initialEquity, s.lastEquity)
  }

  /** The Sharpe ratio is reported as zero when this holds. */
  predicate SharpeUndefined(m: Moments) {
    m.count < 2 || m.m2 == 0.0
  }

  function Variance(m: Moments): real
    requires !SharpeUndefined(m)
  {
    m.m2 / (m.count - 1) as real
  }

  class PerformanceAnalytics {
    var initialEquity: real
    var lastEquity: real
    var peakEquity: real
    var maxDd: real
    var maxDdPct: Pct
    var count: nat
    var meanReturn: real
    var m2: real
    /** The equities seen so far, which the program does not keep. */
    ghost var curve: seq<real>

    ghost function Model(): Stats
      reads this
    {
      Stats(initialEquity, lastEquity, Falls(peakEquity, maxDd), maxDdPct, Moments(count, meanReturn, m2))
    }

    ghost predicate Valid()
      reads this
    {
      Model() == Track(curve)
    }

    constructor ()
      ensures Valid() && curve == []
      ensures initialEquity == -1.0 && lastEquity == peakEquity == 0.0
      ensures maxDd == 0.0 && maxDdPct == Finite(0.0)
      ensures count == 0 && meanReturn == m2 == 0.0
    {
      initialEquity, lastEquity, peakEquity := -1.0, 0.0, 0.0;
      maxDd, maxDdPct := 0.0, Finite(0.0);
      count, meanReturn, m2 := 0, 0.0, 0.0;
      curve := [];
    }

    method Update(port: Portfolio, toDouble: int -> real)
      requires Valid() && port.Valid()
      modifies this
      ensures Valid()
      ensures curve == old(curve) + [toDouble(TotalEquity(LedgerRun(port.config, port.log)))]
      ensures lastEquity == curve[|curve| - 1]
      ensures old(initialEquity) < 0.0 ==>
                && initialEquity == peakEquity == lastEquity
                && maxDd == old(maxDd) && maxDdPct == old(maxDdPct)
                && count == old(count) && meanReturn == old(meanReturn) && m2 == old(m2)
      ensures old(initialEquity) >= 0.0 ==>
                && initialEquity == old(initialEquity)
                && peakEquity == (if lastEquity > old(peakEquity) then lastEquity else old(peakEquity))
                && count == old(count) + (if old(lastEquity) > 0.0 then 1 else 0)
    {
      var units := port.TotalEquity();
      var equity := toDouble(units);
      TrackSnoc(curve, equity);
      Take(equity);
      curve := curve + [equity];
    }

    method Take(equity: real)
      modifies this
      ensures Model() == Observe(old(Model()), equity)
      ensures curve == old(curve)
    {
      if initialEquity < 0.0 {
        initialEquity, lastEquity, peakEquity := equity, equity, equity;
        return;
      }
      if equity > peakEquity {
        peakEquity := equity;
      } else {
        var dd := peakEquity - equity;
        if dd > maxDd {
          maxDd := dd;
        }
        maxDdPct := Deepen(maxDdPct, dd, peakEquity);
      }
      if lastEquity > 0.0 {
        RecordReturn((equity - lastEquity) / lastEquity);
      }
      lastEquity := equity;
    }

    method RecordReturn(ret: real)
      modifies this`count, this`meanReturn, this`m2
      ensures Moments(count, meanReturn, m2) == Record(old(Moments(count, meanReturn, m2)), ret)
    {
      count := count + 1;
      var delta := ret - meanReturn;
      meanReturn := meanReturn + delta / count as real;
      var delta2 := ret - meanReturn;
      m2 := m2 + delta * delta2;
    }
  }
}
