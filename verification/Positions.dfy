/**
 One symbol's position and how fills and marks change it.

 The program branches four ways (buy or sell, against a long or a short). Here the same
 rule is stated once, on the signed quantity; `Portfolio.OnExecution` carries the four
 branches and is proved to compute this function.
 */
module Positions {
  import opened Arithmetic

  /** `num_trades` is a 32-bit counter and wraps. */
  const TRADE_COUNTER_RANGE := 0x1_0000_0000

  datatype Side = Buy | Sell {
    function Flip(): Side {
      if this == Buy then Sell else Buy
    }
  }

  datatype Position = Position(
    symbol: nat,
    netQty: int,
    avgEntryPrice: int,
    realizedPnl: int,
    unrealizedPnl: int,
    totalTraded: nat,
    numTrades: nat,
    lastPrice: int)

  type PosQty = q: int | q > 0 witness 1

  /**
   A fill report of quantity zero is an event of its own. The program can process one only against
   a held position; from flat it would divide by zero.
   */
  datatype PositionEvent =
    | Fill(side: Side, qty: PosQty, price: int)
    | EmptyFill(price: int)
    | Mark(price: int)

  function Flat(symbol: nat): Position {
    Position(symbol, 0, 0, 0, 0, 0, 0, 0)
  }

  function Signed(side: Side, qty: int): int {
    if side == Buy then qty else -qty
  }

  /** Does a fill on this side open or increase the position, rather than reduce it? */
  predicate Adds(p: Position, side: Side) {
    if side == Buy then p.netQty >= 0 else p.netQty <= 0
  }

  /** The quantity of the held position that a fill takes off. */
  function ClosingQty(p: Position, side: Side, qty: PosQty): nat {
    if Adds(p, side) then 0 else Min(qty, Abs(p.netQty))
  }

  /** What an adding fill divides to get the new average price. */
  function EntryNotional(p: Position, qty: PosQty, price: int): int {
    p.avgEntryPrice * Abs(p.netQty) + price * qty
  }

  function NextAverage(p: Position, side: Side, qty: PosQty, price: int): int {
    var net := p.netQty + Signed(side, qty);
    if Adds(p, side) then TruncDiv(EntryNotional(p, qty, price), Abs(p.netQty) + qty)
    else if net == 0 then 0
    else if qty > Abs(p.netQty) then price
    else p.avgEntryPrice
  }

  /** Profit taken by a fill: signed by the side of the position that is being closed. */
  function RealizedBy(p: Position, side: Side, qty: PosQty, price: int): int {
    Sign(p.netQty) * (price - p.avgEntryPrice) * ClosingQty(p, side, qty)
  }

  function MarkTo(p: Position, price: int): Position {
    p.(lastPrice := price, unrealizedPnl := (price - p.avgEntryPrice) * p.netQty)
  }

  function ApplyFill(p: Position, side: Side, qty: PosQty, price: int): Position {
    MarkTo(
      p.(netQty := p.netQty + Signed(side, qty),
         avgEntryPrice := NextAverage(p, side, qty, price),
         realizedPnl := p.realizedPnl + RealizedBy(p, side, qty, price),
         totalTraded := p.totalTraded + qty,
         numTrades := (p.numTrades + 1) % TRADE_COUNTER_RANGE),
      price)
  }

  function Step(p: Position, e: PositionEvent): Position {
    match e
    case Fill(side, qty, price) => ApplyFill(p, side, qty, price)
    case EmptyFill(price) => MarkTo(p.(numTrades := (p.numTrades + 1) % TRADE_COUNTER_RANGE), price)
    case Mark(price) => MarkTo(p, price)
  }

  /** Every reachable position of `symbol` is `Run(symbol, es)` for some history `es`. */
  function Run(symbol: nat, es: seq<PositionEvent>): Position {
    if es == [] then Flat(symbol) else Step(Run(symbol, es[..|es| - 1]), es[|es| - 1])
  }

  function CountIn(e: PositionEvent): int { if e.Mark? then 0 else 1 }

  function QtyIn(e: PositionEvent): int { if e.Fill? then e.qty else 0 }

  function SignedIn(e: PositionEvent): int { if e.Fill? then Signed(e.side, e.qty) else 0 }

  function FillCount(es: seq<PositionEvent>): int { SumOf(CountIn, es) }

  function Volume(es: seq<PositionEvent>): int { SumOf(QtyIn, es) }

  /** Bought minus sold. */
  function NetBought(es: seq<PositionEvent>): int { SumOf(SignedIn, es) }

  lemma RunEmpty(symbol: nat)
    ensures Run(symbol, []) == Flat(symbol)
  {
  }

  lemma RunSnoc(symbol: nat, es: seq<PositionEvent>, e: PositionEvent)
    ensures Run(symbol, es + [e]) == Step(Run(symbol, es), e)
  {
    assert (es + [e])[..|es|] == es;
  }

  lemma StepFacts(p: Position, e: PositionEvent)
    ensures var q := Step(p, e);
            && q.symbol == p.symbol && q.lastPrice == e.price
            && q.netQty == p.netQty + SignedIn(e)
            && q.totalTraded == p.totalTraded + QtyIn(e)
            && q.numTrades == (if e.Mark? then p.numTrades else (p.numTrades + 1) % TRADE_COUNTER_RANGE)
            && q.unrealizedPnl == (q.lastPrice - q.avgEntryPrice) * q.netQty
            && q.avgEntryPrice == (if e.Fill? then NextAverage(p, e.side, e.qty, e.price) else p.avgEntryPrice)
            && (q.netQty == 0 ==> q.avgEntryPrice == 0 || (!e.Fill? && q.avgEntryPrice == p.avgEntryPrice))
            && (e.Mark? ==> q.realizedPnl == p.realizedPnl)
  {
  }

  /** What a fill report moves, in plain quantities; a report may be for no quantity at all. */
  lemma FillMoves(p: Position, side: Side, qty: nat, price: int)
    ensures var q := Step(p, if qty > 0 then Fill(side, qty, price) else EmptyFill(price));
            var closed := if side == Buy then Min(qty, -p.netQty) else Min(qty, p.netQty);
            && q.symbol == p.symbol
            && q.netQty == (if side == Buy then p.netQty + qty else p.netQty - qty)
            && q.totalTraded == p.totalTraded + qty
            && q.numTrades == (p.numTrades + 1) % 0x1_0000_0000
            && q.lastPrice == price
            && q.realizedPnl - p.realizedPnl ==
               (if closed <= 0 then 0
                else if side == Buy then (p.avgEntryPrice - price) * closed
                else (price - p.avgEntryPrice) * closed)
            && q.unrealizedPnl == (price - q.avgEntryPrice) * q.netQty
  {
    if qty > 0 && !Adds(p, side) {
      Rotated(price, p.avgEntryPrice, ClosingQty(p, side, qty));
    }
  }

  lemma Rotated(price: int, avg: int, qty: int)
    ensures -1 * (price - avg) * qty == (avg - price) * qty
    ensures 1 * (price - avg) * qty == (price - avg) * qty
  {
  }

  lemma {:induction false} RunCount(symbol: nat, es: seq<PositionEvent>)
    ensures FillCount(es) >= 0 && Run(symbol, es).numTrades == FillCount(es) % TRADE_COUNTER_RANGE
  {
    hide Step;
    if es != [] {
      var init := es[..|es| - 1];
      RunCount(symbol, init);
      StepFacts(Run(symbol, init), es[|es| - 1]);
    }
  }

  /** What every history keeps, whatever its fills and marks. */
  lemma {:induction false} RunInvariant(symbol: nat, es: seq<PositionEvent>)
    ensures var p := Run(symbol, es);
            && p.symbol == symbol
            && p.netQty == NetBought(es)
            && p.lastPrice == (if es == [] then 0 else es[|es| - 1].price)
            && p.totalTraded == Volume(es)
            && FillCount(es) >= 0 && p.numTrades == FillCount(es) % TRADE_COUNTER_RANGE
            && p.unrealizedPnl == (p.lastPrice - p.avgEntryPrice) * p.netQty
            && (p.netQty == 0 ==> p.avgEntryPrice == 0)
            && (FillCount(es) == 0 ==> p.netQty == 0 && p.realizedPnl == 0)
  {
    hide Step;
    RunCount(symbol, es);
    if es != [] {
      var init := es[..|es| - 1];
      RunInvariant(symbol, init);
      StepFacts(Run(symbol, init), es[|es| - 1]);
    }
  }
}
