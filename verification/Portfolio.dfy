/**
 The portfolio engine: positions in a flat array indexed by symbol, updated in place by
 execution reports and marks.
 */
module PortfolioEngine {
  import opened Arithmetic
  import opened Positions
  import opened Ledgers

  datatype ExecutionReport = ExecutionReport(
    isFill: bool,
    symbol: SymbolId,
    side: Side,
    execQty: nat,
    execPrice: int)

  class Portfolio {
    const config: Config
    var cash: int
    const positions: array<Position>
    /** The fills and marks processed so far. */
    ghost var log: seq<LedgerEvent>

    ghost function Model(): Ledger
      reads this, positions
    {
      Ledger(cash, positions[..])
    }

    /** The fields are exactly what the ledger's log says they should be. */
    ghost predicate Valid()
      reads this, positions
    {
      positions.Length == MAX_SYMBOLS && Model() == LedgerRun(config, log)
    }

    constructor (config: Config)
      ensures Valid() && fresh(positions)
      ensures this.config == config && log == []
      ensures cash == config.initialCash
      ensures forall s: SymbolId :: positions[s] == Position(s, 0, 0, 0, 0, 0, 0, 0)
    {
      this.config := config;
      cash := config.initialCash;
      positions := new Position[MAX_SYMBOLS](_ => Flat(0));
      log := [];
      new;
      for i := 0 to MAX_SYMBOLS
        invariant forall j :: 0 <= j < i ==> positions[j] == Flat(j)
        invariant forall j :: i <= j < MAX_SYMBOLS ==> positions[j] == Flat(0)
        modifies positions
      {
        positions[i] := positions[i].(symbol := i);
      }
      assert positions[..] == OpeningPositions();
    }

    /** A report of quantity zero divides by zero unless a position is held; nothing else is asked. */
    method OnExecution(rpt: ExecutionReport)
      requires Valid()
      requires rpt.isFill ==> rpt.execQty > 0 || positions[rpt.symbol].netQty != 0
      modifies this, positions
      ensures Valid()
      ensures !rpt.isFill ==> log == old(log) && cash == old(cash) && positions[..] == old(positions[..])
      ensures rpt.isFill && rpt.execQty > 0 ==>
                log == old(log) + [LedgerEvent(rpt.symbol, Fill(rpt.side, rpt.execQty, rpt.execPrice))]
      ensures rpt.isFill && rpt.execQty == 0 ==>
                log == old(log) + [LedgerEvent(rpt.symbol, EmptyFill(rpt.execPrice))]
      ensures rpt.isFill ==>
                var p, q, fees := old(positions[rpt.symbol]), positions[rpt.symbol], config.fees;
                && q.netQty == (if rpt.side == Buy then p.netQty + rpt.execQty else p.netQty - rpt.execQty)
                && q.totalTraded == p.totalTraded + rpt.execQty
                && q.lastPrice == rpt.execPrice
                && q.unrealizedPnl == (rpt.execPrice - q.avgEntryPrice) * q.netQty
                && cash == old(cash) + (q.realizedPnl - p.realizedPnl)
                           - (fees.perShareFee * rpt.execQty + fees.takerFee * rpt.execQty + fees.perTradeFee)
      ensures forall s: SymbolId :: !rpt.isFill || s != rpt.symbol ==> positions[s] == old(positions[s])
    {
      hide Step, MarkTo, Post, LedgerRun;
      if !rpt.isFill {
        return;
      }
      var pos := positions[rpt.symbol];
      var fee := config.fees.Compute(rpt.execQty, false);
      cash := cash - fee;

      var qty, price := rpt.execQty, rpt.execPrice;
      ghost var e := LedgerEvent(rpt.symbol, if qty > 0 then Fill(rpt.side, qty, price) else EmptyFill(price));
      ghost var after := Step(pos, e.event);
      var realized;
      pos, realized := Settle(pos, rpt.side, qty, price);
      cash := cash + realized;
      positions[rpt.symbol] := pos;
      Remark(rpt.symbol, price);

      FillPosted(config, old(Model()), e, qty, price, pos);
      assert positions[..] == old(positions[..])[rpt.symbol := after];
      FillMoves(old(positions[rpt.symbol]), rpt.side, qty, price);
      LedgerRunSnoc(config, log, e);
      log := log + [e];
    }

    /** Fee, profit and position of a fill make up the next ledger. */
    static lemma FillPosted(cfg: Config, l: Ledger, e: LedgerEvent, qty: nat, price: int, pos: Position)
      requires |l.positions| == MAX_SYMBOLS
      requires !e.event.Mark? && QtyOf(e) == qty
      requires MarkTo(pos, price) == Step(l.positions[e.symbol], e.event)
      ensures Post(cfg, l, e) ==
              Ledger(l.cash - cfg.fees.Compute(qty, false) + (pos.realizedPnl - l.positions[e.symbol].realizedPnl),
                     l.positions[e.symbol := MarkTo(pos, price)])
      ensures MarkTo(pos, price).realizedPnl == pos.realizedPnl
    {
      hide Step;
    }

    /** The position arithmetic of a fill, up to the final mark, and the profit it moves to cash. */
    static method Settle(held: Position, side: Side, qty: nat, price: int)
      returns (pos: Position, realized: int)
      requires qty > 0 || held.netQty != 0
      ensures MarkTo(pos, price) == Step(held, if qty > 0 then Fill(side, qty, price) else EmptyFill(price))
      ensures realized == pos.realizedPnl - held.realizedPnl
      ensures pos.netQty == (if side == Buy then held.netQty + qty else held.netQty - qty)
      ensures pos.totalTraded == held.totalTraded + qty && pos.lastPrice == price
    {
      pos, realized := held, 0;
      hide TruncDiv, RealizedBy, NextAverage;
      FillParts(held, side, qty, price);
      if side == Buy {
        if pos.netQty >= 0 {
          var totalCost := pos.avgEntryPrice * pos.netQty + price * qty;
          pos := pos.(netQty := pos.netQty + qty);
          pos := pos.(avgEntryPrice := TruncDiv(totalCost, pos.netQty));
        } else {
          var closingQty := Min(qty, -pos.netQty);
          realized := (pos.avgEntryPrice - price) * closingQty;
          pos := pos.(realizedPnl := pos.realizedPnl + realized);
          pos := pos.(netQty := pos.netQty + qty);
          if pos.netQty > 0 {
            pos := pos.(avgEntryPrice := price);
          } else if pos.netQty == 0 {
            pos := pos.(avgEntryPrice := 0);
          }
        }
      } else {
        if pos.netQty <= 0 {
          var totalValue := pos.avgEntryPrice * -pos.netQty + price * qty;
          pos := pos.(netQty := pos.netQty - qty);
          pos := pos.(avgEntryPrice := TruncDiv(totalValue, -pos.netQty));
        } else {
          var closingQty := Min(qty, pos.netQty);
          realized := (price - pos.avgEntryPrice) * closingQty;
          pos := pos.(realizedPnl := pos.realizedPnl + realized);
          pos := pos.(netQty := pos.netQty - qty);
          if pos.netQty < 0 {
            pos := pos.(avgEntryPrice := price);
          } else if pos.netQty == 0 {
            pos := pos.(avgEntryPrice := 0);
          }
        }
      }
      pos := pos.(totalTraded := pos.totalTraded + qty);
      pos := pos.(numTrades := (pos.numTrades + 1) % TRADE_COUNTER_RANGE);
      pos := pos.(lastPrice := price);
    }

    /** Mark to market. */
    method UpdateM2M(symbol: SymbolId, lastPrice: int)
      requires Valid()
      modifies this`log, positions
      ensures Valid()
      ensures log == old(log) + [LedgerEvent(symbol, Mark(lastPrice))]
      ensures var p, q := old(positions[symbol]), positions[symbol];
              q == p.(lastPrice := lastPrice, unrealizedPnl := (lastPrice - p.avgEntryPrice) * p.netQty)
      ensures forall s: SymbolId :: s != symbol ==> positions[s] == old(positions[s])
    {
      Remark(symbol, lastPrice);
      ghost var e := LedgerEvent(symbol, Mark(lastPrice));
      LedgerRunSnoc(config, log, e);
      log := log + [e];
    }

    /** The marking step that fills and market data share. */
    method Remark(symbol: SymbolId, lastPrice: int)
      requires positions.Length == MAX_SYMBOLS
      modifies positions
      ensures positions[..] == old(positions[..])[symbol := MarkTo(old(positions[symbol]), lastPrice)]
    {
      var pos := positions[symbol];
      pos := pos.(lastPrice := lastPrice);
      if pos.netQty > 0 {
        pos := pos.(unrealizedPnl := (lastPrice - pos.avgEntryPrice) * pos.netQty);
      } else if pos.netQty < 0 {
        ShortMark(pos.avgEntryPrice, lastPrice, pos.netQty);
        pos := pos.(unrealizedPnl := (pos.avgEntryPrice - lastPrice) * -pos.netQty);
      } else {
        pos := pos.(unrealizedPnl := 0);
      }
      positions[symbol] := pos;
    }

    method TotalPnl() returns (total: int)
      requires Valid()
      ensures total == Ledgers.TotalPnl(LedgerRun(config, log))
    {
      total := 0;
      for i := 0 to MAX_SYMBOLS
        invariant total == SumOf(CountedPnl, positions[..i])
      {
        if positions[i].numTrades > 0 || positions[i].netQty != 0 {
          total := total + (positions[i].realizedPnl + positions[i].unrealizedPnl);
        }
        SumOfSnoc(CountedPnl, positions[..i], positions[i]);
        assert positions[..i + 1] == positions[..i] + [positions[i]];
      }
      assert positions[..MAX_SYMBOLS] == positions[..];
    }

    method TotalEquity() returns (equity: int)
      requires Valid()
      ensures equity == Ledgers.TotalEquity(LedgerRun(config, log))
    {
      var pnl := TotalPnl();
      equity := cash + pnl;
    }
  }

  /** Average and profit of a fill, the way the four branches compute them. */
  lemma FillParts(p: Position, side: Side, qty: nat, price: int)
    requires qty > 0 || p.netQty != 0
    ensures var held := Abs(p.netQty);
            var gain := if side == Buy then p.avgEntryPrice - price else price - p.avgEntryPrice;
            if Adds(p, side) then
              && TruncDiv(p.avgEntryPrice * held + price * qty, held + qty) ==
                 (if qty > 0 then NextAverage(p, side, qty, price) else p.avgEntryPrice)
              && (qty > 0 ==> RealizedBy(p, side, qty, price) == 0)
            else if qty > 0 then
              && RealizedBy(p, side, qty, price) == gain * Min(qty, held)
              && NextAverage(p, side, qty, price) ==
                 (if qty == held then 0 else if qty > held then price else p.avgEntryPrice)
            else gain * Min(qty, held) == 0
  {
    if qty == 0 {
      TruncDivExact(p.avgEntryPrice, Abs(p.netQty));
    } else if !Adds(p, side) {
      Rotated(price, p.avgEntryPrice, Min(qty, Abs(p.netQty)));
    }
  }

  lemma ShortMark(avg: int, price: int, net: int)
    ensures (avg - price) * -net == (price - avg) * net
  {
  }
}
