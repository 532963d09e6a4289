/**
 How fills compose: splitting a fill into pieces, and swapping buy and sell.
 */
module FillLaws {
  import opened Arithmetic
  import opened Positions

  /** `p` after the pieces `qs`, all on one side and at one price. */
  function FillPieces(p: Position, side: Side, qs: seq<PosQty>, price: int): Position {
    if qs == [] then p
    else ApplyFill(FillPieces(p, side, qs[..|qs| - 1], price), side, qs[|qs| - 1], price)
  }

  function Quantity(q: PosQty): int { q }

  lemma {:induction false} QuantitiesNotNegative(qs: seq<PosQty>)
    ensures SumOf(Quantity, qs) >= 0
  {
    if qs != [] {
      QuantitiesNotNegative(qs[..|qs| - 1]);
    }
  }

  function Total(qs: seq<PosQty>): nat {
    QuantitiesNotNegative(qs);
    SumOf(Quantity, qs)
  }

  /** Equal in everything but the number of trades. */
  predicate SameButTradeCount(p: Position, q: Position) {
    p.(numTrades := 0) == q.(numTrades := 0)
  }

  /** A fill that does not add to a position already held on its own side. */
  predicate FromFlatOrOpposite(p: Position, side: Side) {
    p.netQty == 0 || !Adds(p, side)
  }

  /** Splitting such a fill in two is exact, wherever the cut falls: before, at or beyond flat. */
  lemma SplitInTwo(p: Position, side: Side, q1: PosQty, q2: PosQty, price: int)
    requires FromFlatOrOpposite(p, side)
    ensures SameButTradeCount(
              ApplyFill(ApplyFill(p, side, q1, price), side, q2, price),
              ApplyFill(p, side, q1 + q2, price))
  {
    SplitNetAndAverage(p, side, q1, q2, price);
    SplitRealized(p, side, q1, q2, price);
  }

  lemma OpeningAverage(p: Position, side: Side, qty: PosQty, price: int)
    requires p.netQty == 0
    ensures NextAverage(p, side, qty, price) == price
  {
    assert p.avgEntryPrice * Abs(p.netQty) == 0;
    TruncDivExact(price, qty);
  }

  lemma SplitNetAndAverage(p: Position, side: Side, q1: PosQty, q2: PosQty, price: int)
    requires FromFlatOrOpposite(p, side)
    ensures var mid := ApplyFill(p, side, q1, price);
            NextAverage(mid, side, q2, price) == NextAverage(p, side, q1 + q2, price)
  {
    var mid := ApplyFill(p, side, q1, price);
    if p.netQty == 0 {
      OpeningAverage(p, side, q1, price);
      OpeningAverage(p, side, q1 + q2, price);
    }
    if mid.netQty == 0 {
      OpeningAverage(mid, side, q2, price);
    } else if p.netQty == 0 || q1 > Abs(p.netQty) {
      var held := Abs(mid.netQty);
      assert EntryNotional(mid, q2, price) == price * (held + q2) by {
        assert price * (held + q2) == price * held + price * q2;
      }
      TruncDivExact(price, held + q2);
    }
  }

  lemma SplitRealized(p: Position, side: Side, q1: PosQty, q2: PosQty, price: int)
    requires FromFlatOrOpposite(p, side)
    ensures RealizedBy(p, side, q1, price) + RealizedBy(ApplyFill(p, side, q1, price), side, q2, price)
            == RealizedBy(p, side, q1 + q2, price)
  {
    var mid := ApplyFill(p, side, q1, price);
    var g := Sign(p.netQty) * (price - p.avgEntryPrice);
    var c1, c2 := ClosingQty(p, side, q1), ClosingQty(mid, side, q2);
    assert c1 + c2 == ClosingQty(p, side, q1 + q2);
    assert RealizedBy(mid, side, q2, price) == g * c2 by {
      if c2 > 0 {
        assert mid.avgEntryPrice == p.avgEntryPrice && Sign(mid.netQty) == Sign(p.netQty);
      }
    }
    assert g * (c1 + c2) == g * c1 + g * c2;
  }

  /** A flip is a close followed by an opening fill at the same price. */
  lemma FlipIsCloseThenOpen(p: Position, side: Side, qty: PosQty, price: int)
    requires !Adds(p, side) && qty > Abs(p.netQty)
    ensures var closed := ApplyFill(p, side, Abs(p.netQty), price);
            && closed.netQty == 0 && closed.avgEntryPrice == 0
            && SameButTradeCount(ApplyFill(closed, side, qty - Abs(p.netQty), price),
                                 ApplyFill(p, side, qty, price))
  {
    SplitInTwo(p, side, Abs(p.netQty), qty - Abs(p.netQty), price);
  }

  /** Splitting into any number of pieces is exact unless the fill adds to a held position. */
  lemma {:induction false} SplitExact(p: Position, side: Side, qs: seq<PosQty>, price: int)
    requires qs != [] && FromFlatOrOpposite(p, side)
    ensures Total(qs) > 0
    ensures SameButTradeCount(FillPieces(p, side, qs, price), ApplyFill(p, side, Total(qs), price))
    decreases |qs|
  {
    var init, last := qs[..|qs| - 1], qs[|qs| - 1];
    if init == [] {
      assert FillPieces(p, side, init, price) == p;
      assert Total(init) == 0;
    } else {
      SplitExact(p, side, init, price);
      var whole, pieces := ApplyFill(p, side, Total(init), price), FillPieces(p, side, init, price);
      assert SameButTradeCount(ApplyFill(pieces, side, last, price), ApplyFill(whole, side, last, price)) by {
        TradeCountIrrelevant(pieces, whole, side, last, price);
      }
      SplitInTwo(p, side, Total(init), last, price);
    }
  }

  lemma TradeCountIrrelevant(p: Position, q: Position, side: Side, qty: PosQty, price: int)
    requires SameButTradeCount(p, q)
    ensures SameButTradeCount(ApplyFill(p, side, qty, price), ApplyFill(q, side, qty, price))
  {
    assert p == q.(numTrades := p.numTrades);
  }

  /** How far the average after one more piece can be from the average of one whole fill. */
  lemma PieceAverage(p: Position, pieces: Position, side: Side, n: PosQty, last: PosQty, price: int, k: PosQty)
    requires Adds(p, side) && pieces.netQty == p.netQty + Signed(side, n)
    requires Abs(NextAverage(p, side, n, price) - pieces.avgEntryPrice) <= k - 1
    ensures var whole, split := NextAverage(p, side, n + last, price), NextAverage(pieces, side, last, price);
            && Abs(whole - split) <= k
            && (p.avgEntryPrice >= 0 && price >= 0 && 0 <= pieces.avgEntryPrice <= NextAverage(p, side, n, price)
                ==> 0 <= split <= whole)
  {
    hide TruncDiv;
    var held, t := Abs(p.netQty), EntryNotional(p, n, price);
    assert EntryNotional(p, n + last, price) == t + price * last by {
      assert price * (n + last) == price * n + price * last;
    }
    PieceLoss(pieces.avgEntryPrice, held + n, t, price * last, last, k);
    if p.avgEntryPrice >= 0 && pieces.avgEntryPrice >= 0 && price >= 0 {
      DivNonNegative(p.avgEntryPrice, held, price, n);
      DivNonNegative(pieces.avgEntryPrice, held + n, price, last);
    }
  }

  /**
   Splitting a fill that adds to a held position into m pieces moves the average by at most
   m - 1 units, at any prices; at non-negative ones it can only lower it.
   */
  lemma {:induction false} SplitAddLosesAtMost(p: Position, side: Side, qs: seq<PosQty>, price: int)
    requires qs != [] && Adds(p, side)
    ensures Total(qs) > 0
    ensures var pieces, whole := FillPieces(p, side, qs, price), ApplyFill(p, side, Total(qs), price);
            && pieces.netQty == p.netQty + Signed(side, Total(qs))
            && pieces.realizedPnl == p.realizedPnl
            && Abs(whole.avgEntryPrice - pieces.avgEntryPrice) <= |qs| - 1
            && (p.avgEntryPrice >= 0 && price >= 0 ==> 0 <= pieces.avgEntryPrice <= whole.avgEntryPrice)
    decreases |qs|
  {
    hide TruncDiv, EntryNotional;
    var init, last := qs[..|qs| - 1], qs[|qs| - 1];
    var pieces := FillPieces(p, side, init, price);
    assert Total(qs) == Total(init) + last;
    if init == [] {
      assert Total(init) == 0;
      if p.avgEntryPrice >= 0 && price >= 0 {
        AverageNonNegative(p, side, last, price);
      }
    } else {
      SplitAddLosesAtMost(p, side, init, price);
      PieceAverage(p, pieces, side, Total(init), last, price, |init|);
    }
    AddNoProfit(pieces, side, last, price);
  }

  lemma AverageNonNegative(p: Position, side: Side, qty: PosQty, price: int)
    requires Adds(p, side) && p.avgEntryPrice >= 0 && price >= 0
    ensures NextAverage(p, side, qty, price) >= 0
  {
    DivNonNegative(p.avgEntryPrice, Abs(p.netQty), price, qty);
  }

  lemma AddNoProfit(p: Position, side: Side, qty: PosQty, price: int)
    requires Adds(p, side)
    ensures RealizedBy(p, side, qty, price) == 0
    ensures Adds(ApplyFill(p, side, qty, price), side)
  {
  }

  lemma DivNonNegative(a: nat, held: nat, price: nat, qty: PosQty)
    ensures a * held + price * qty >= 0
    ensures TruncDiv(a * held + price * qty, held + qty) >= 0
  {
    hide TruncDiv;
    assert a * held >= 0 && price * qty >= 0;
    TruncDivFloor(a * held + price * qty, held + qty);
  }

  /** One more truncation costs one more unit at most, and keeps the order. */
  lemma PieceLoss(a: int, held: PosQty, t: int, extra: int, qty: PosQty, k: PosQty)
    requires Abs(TruncDiv(t, held) - a) <= k - 1
    ensures var whole, split := TruncDiv(t + extra, held + qty), TruncDiv(a * held + extra, held + qty);
            && Abs(whole - split) <= k
            && (t >= 0 && 0 <= a <= TruncDiv(t, held) ==> split <= whole)
  {
    hide TruncDiv;
    var x, y, d := a * held + extra, t + extra, held + qty;
    NotionalGap(a, held, t, k);
    MulMono(k, k, held, d);
    if t >= 0 && 0 <= a <= TruncDiv(t, held) {
      NotionalOrder(a, held, t);
    }
    if x <= y {
      TruncDivNear(x, y, d, k);
    } else {
      TruncDivNear(y, x, d, k);
    }
  }

  /** The notional that the pieces carry on is less than k held quantities off. */
  lemma NotionalGap(a: int, held: PosQty, t: int, k: PosQty)
    requires Abs(TruncDiv(t, held) - a) <= k - 1
    ensures Abs(t - a * held) < k * held
  {
    hide TruncDiv;
    var q := TruncDiv(t, held);
    var gap := (q - a) * held;
    assert t - a * held == gap + TruncRem(t, held) by { assert gap == q * held - a * held; }
    assert Abs(TruncRem(t, held)) < held by { TruncRemBound(t, held); }
    assert Abs(gap) <= (k - 1) * held by { MulBound(q - a, held, k - 1, held); }
    assert (k - 1) * held == k * held - held;
  }

  lemma NotionalOrder(a: nat, held: PosQty, t: nat)
    requires a <= TruncDiv(t, held)
    ensures a * held <= t
  {
    hide TruncDiv;
    TruncDivFloor(t, held);
    MulMono(a, TruncDiv(t, held), held, held);
  }

  /** `m` pieces of a single unit. */
  function Units(m: nat): seq<PosQty> {
    seq(m, _ => 1)
  }

  lemma {:induction false} UnitsTotal(m: nat)
    ensures Total(Units(m)) == m
  {
    if m > 0 {
      UnitsTotal(m - 1);
      assert Units(m)[..m - 1] == Units(m - 1);
    }
  }

  /** While fewer than H units at price H have been added to H held at 0, the average stays 0. */
  lemma {:induction false} UnitsKeepZero(p: Position, H: PosQty, m: nat)
    requires p.netQty == H && p.avgEntryPrice == 0
    ensures var q := FillPieces(p, Buy, Units(m), H);
            q.netQty == H + m && q.avgEntryPrice == 0
  {
    hide TruncDiv;
    if m > 0 {
      UnitsKeepZero(p, H, m - 1);
      assert Units(m)[..m - 1] == Units(m - 1);
      TruncDivSmall(H, H + m);
    }
  }

  lemma WholeAverage(p: Position, m: PosQty)
    requires m >= 2 && p.netQty == m * (m - 1) && p.avgEntryPrice == 0
    ensures NextAverage(p, Buy, m, m * (m - 1)) == m - 1
  {
    var H := m * (m - 1);
    assert H + m == m * m;
    assert H * m == (m - 1) * (m * m);
    assert EntryNotional(p, m, H) == H * m;
    TruncDivExact(m - 1, m * m);
  }

  /**
   The loss of m - 1 is reached, for every m: from m * (m - 1) units bought at 0, single units at
   price m * (m - 1) leave the average at 0, while one fill of m raises it to m - 1.
   */
  lemma SplitAddLossReached(symbol: nat, m: PosQty)
    requires m >= 2
    ensures m * (m - 1) > 0
    ensures var H := m * (m - 1);
            var p := Run(symbol, [Fill(Buy, H, 0)]);
            && Total(Units(m)) == m
            && ApplyFill(p, Buy, m, H).avgEntryPrice - FillPieces(p, Buy, Units(m), H).avgEntryPrice == |Units(m)| - 1
  {
    assert m * (m - 1) >= m by { MulMono(m, m, 1, m - 1); }
    var H := m * (m - 1);
    var p := Run(symbol, [Fill(Buy, H, 0)]);
    assert p == ApplyFill(Flat(symbol), Buy, H, 0) by {
      assert [] + [Fill(Buy, H, 0)] == [Fill(Buy, H, 0)];
      RunSnoc(symbol, [], Fill(Buy, H, 0));
    }
    OpeningAverage(Flat(symbol), Buy, H, 0);
    UnitsTotal(m);
    UnitsKeepZero(p, H, m);
    WholeAverage(p, m);
  }

  function MirrorEvent(e: PositionEvent): PositionEvent {
    match e
    case Fill(side, qty, price) => Fill(side.Flip(), qty, price)
    case EmptyFill(price) => EmptyFill(price)
    case Mark(price) => Mark(price)
  }

  /** The same history with every buy a sell and every sell a buy. */
  function MirrorAll(es: seq<PositionEvent>): seq<PositionEvent> {
    seq(|es|, i requires 0 <= i < |es| => MirrorEvent(es[i]))
  }

  function MirrorPosition(p: Position): Position {
    p.(netQty := -p.netQty, realizedPnl := -p.realizedPnl, unrealizedPnl := -p.unrealizedPnl)
  }

  lemma MirrorStep(p: Position, e: PositionEvent)
    ensures Step(MirrorPosition(p), MirrorEvent(e)) == MirrorPosition(Step(p, e))
  {
    match e
    case EmptyFill(price) =>
      Negate(price - p.avgEntryPrice, p.netQty);
    case Mark(price) =>
      Negate(price - p.avgEntryPrice, p.netQty);
    case Fill(side, qty, price) =>
      MirrorFill(p, side, qty, price);
      Negate(price - NextAverage(p, side, qty, price), p.netQty + Signed(side, qty));
  }

  lemma Negate(x: int, y: int)
    ensures x * -y == -(x * y)
  {
  }

  lemma MirrorFill(p: Position, side: Side, qty: PosQty, price: int)
    ensures var q := MirrorPosition(p);
            && NextAverage(q, side.Flip(), qty, price) == NextAverage(p, side, qty, price)
            && RealizedBy(q, side.Flip(), qty, price) == -RealizedBy(p, side, qty, price)
  {
    var q := MirrorPosition(p);
    assert EntryNotional(q, qty, price) == EntryNotional(p, qty, price);
    assert ClosingQty(q, side.Flip(), qty) == ClosingQty(p, side, qty);
    var g, c := price - p.avgEntryPrice, ClosingQty(p, side, qty);
    assert Sign(-p.netQty) * g == -(Sign(p.netQty) * g);
    assert -(Sign(p.netQty) * g) * c == -(Sign(p.netQty) * g * c);
  }

  /**
   Long/short symmetry, over every history: trading the other way round negates the position
   and both kinds of P&L, and leaves average price, volume, trade count and last price alone.
   */
  lemma {:induction false} MirrorRun(symbol: nat, es: seq<PositionEvent>)
    ensures Run(symbol, MirrorAll(es)) == MirrorPosition(Run(symbol, es))
  {
    if es != [] {
      var init := es[..|es| - 1];
      MirrorRun(symbol, init);
      assert MirrorAll(es)[..|es| - 1] == MirrorAll(init);
      MirrorStep(Run(symbol, init), es[|es| - 1]);
    }
  }
}
