/**
 The average entry price stays between the lowest and the highest price of the fills
 that opened or added to the position currently held.
 */
module EntryPrice {
  import opened Arithmetic
  import opened Positions

  /** Prices of the fills that built the leg now held: a flip starts a leg, a close ends one. */
  function LegPrices(symbol: nat, es: seq<PositionEvent>): seq<int> {
    if es == [] then []
    else
      var init := es[..|es| - 1];
      LegStep(LegPrices(symbol, init), Run(symbol, init).netQty, es[|es| - 1])
  }

  function LegStep(leg: seq<int>, held: int, e: PositionEvent): seq<int> {
    match e
    case Mark(_) => leg
    case EmptyFill(_) => leg
    case Fill(side, qty, price) =>
      if held == 0 || (held > 0) == (side == Buy) then leg + [price]
      else if qty < Abs(held) then leg
      else if qty == Abs(held) then []
      else [price]
  }

  ghost predicate AllBetween(xs: seq<int>, lo: int, hi: int) {
    forall i :: 0 <= i < |xs| ==> lo <= xs[i] <= hi
  }

  function Lowest(xs: seq<int>): (m: int)
    requires xs != []
    ensures m in xs && forall i :: 0 <= i < |xs| ==> m <= xs[i]
  {
    if |xs| == 1 then xs[0] else
    var rest := Lowest(xs[1..]);
    assert forall i :: 0 < i < |xs| ==> xs[i] == xs[1..][i - 1];
    Min(xs[0], rest)
  }

  function Highest(xs: seq<int>): (m: int)
    requires xs != []
    ensures m in xs && forall i :: 0 <= i < |xs| ==> xs[i] <= m
  {
    if |xs| == 1 then xs[0] else
    var rest := Highest(xs[1..]);
    assert forall i :: 0 < i < |xs| ==> xs[i] == xs[1..][i - 1];
    if xs[0] > rest then xs[0] else rest
  }

  /** A truncated weighted average stays in any integer interval that holds its two parts. */
  lemma AverageBetween(a: int, held: nat, price: int, qty: PosQty, lo: int, hi: int)
    requires held > 0 ==> lo <= a <= hi
    requires lo <= price <= hi
    ensures lo <= TruncDiv(a * held + price * qty, held + qty) <= hi
  {
    if held > 0 {
      WeightBetween(a, held, lo, hi);
    }
    WeightBetween(price, qty, lo, hi);
    assert lo * (held + qty) == lo * held + lo * qty;
    assert hi * (held + qty) == hi * held + hi * qty;
    TruncDivBetween(a * held + price * qty, held + qty, lo, hi);
  }

  lemma WeightBetween(x: int, w: nat, lo: int, hi: int)
    requires lo <= x <= hi
    ensures lo * w <= x * w <= hi * w
  {
    assert (x - lo) * w >= 0 && (hi - x) * w >= 0;
  }

  /** One event carries containment in [lo, hi] from the old leg to the new one. */
  lemma LegStepContains(leg: seq<int>, p: Position, e: PositionEvent, lo: int, hi: int)
    requires p.netQty == 0 <==> leg == []
    requires leg != [] && AllBetween(leg, lo, hi) ==> lo <= p.avgEntryPrice <= hi
    ensures var q, next := Step(p, e), LegStep(leg, p.netQty, e);
            && (q.netQty == 0 <==> next == [])
            && (next != [] && AllBetween(next, lo, hi) ==> lo <= q.avgEntryPrice <= hi)
  {
    hide Step, NextAverage;
    StepFacts(p, e);
    match e
    case Mark(_) =>
    case EmptyFill(_) =>
    case Fill(side, qty, price) =>
      if Adds(p, side) {
        AddContains(leg, p, side, qty, price, lo, hi);
      } else {
        CloseContains(p, side, qty, price);
        if qty > Abs(p.netQty) {
          assert LegStep(leg, p.netQty, e)[0] == price;
        }
      }
  }

  lemma AddContains(leg: seq<int>, p: Position, side: Side, qty: PosQty, price: int, lo: int, hi: int)
    requires Adds(p, side) && (p.netQty == 0 <==> leg == [])
    requires leg != [] && AllBetween(leg, lo, hi) ==> lo <= p.avgEntryPrice <= hi
    ensures AllBetween(leg + [price], lo, hi) ==> lo <= NextAverage(p, side, qty, price) <= hi
  {
    var next := leg + [price];
    if AllBetween(next, lo, hi) {
      assert forall i :: 0 <= i < |leg| ==> leg[i] == next[i];
      assert next[|leg|] == price;
      AverageBetween(p.avgEntryPrice, Abs(p.netQty), price, qty, lo, hi);
    }
  }

  lemma CloseContains(p: Position, side: Side, qty: PosQty, price: int)
    requires !Adds(p, side)
    ensures qty < Abs(p.netQty) ==> NextAverage(p, side, qty, price) == p.avgEntryPrice
    ensures qty > Abs(p.netQty) ==> NextAverage(p, side, qty, price) == price
    ensures p.netQty + Signed(side, qty) == 0 <==> qty == Abs(p.netQty)
  {
  }

  lemma {:induction false} AverageInLeg(symbol: nat, es: seq<PositionEvent>, lo: int, hi: int)
    ensures var p, leg := Run(symbol, es), LegPrices(symbol, es);
            && (p.netQty == 0 <==> leg == [])
            && (leg != [] && AllBetween(leg, lo, hi) ==> lo <= p.avgEntryPrice <= hi)
  {
    if es != [] {
      var init := es[..|es| - 1];
      AverageInLeg(symbol, init, lo, hi);
      LegStepContains(LegPrices(symbol, init), Run(symbol, init), es[|es| - 1], lo, hi);
    }
  }

  /** The containment law, for every reachable non-flat position. */
  lemma AverageWithinLegPrices(symbol: nat, es: seq<PositionEvent>)
    requires Run(symbol, es).netQty != 0
    ensures var leg := LegPrices(symbol, es);
            leg != [] && Lowest(leg) <= Run(symbol, es).avgEntryPrice <= Highest(leg)
  {
    var leg := LegPrices(symbol, es);
    if leg == [] {
      AverageInLeg(symbol, es, 0, 0);
    } else {
      AverageInLeg(symbol, es, Lowest(leg), Highest(leg));
    }
  }
}
