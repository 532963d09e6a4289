/**
 The pre-trade risk check.
 */
module RiskGate {
  import opened Options
  import opened Arithmetic
  import opened Positions
  import opened FillLaws
  import opened Ledgers
  import opened PortfolioEngine

  /** Zero disables a limit. */
  datatype RiskLimits = RiskLimits(maxPositionPerSymbol: nat, maxLoss: int, maxOrderSize: nat)

  datatype Verdict = Approved | MaxPosition | MaxLoss | MaxOrderSize | KillSwitch

  datatype OrderRequest = OrderRequest(symbol: SymbolId, side: Side, qty: nat)

  type Book = l: Ledger | |l.positions| == MAX_SYMBOLS witness Ledger(0, OpeningPositions())

  predicate SizeOk(limits: RiskLimits, req: OrderRequest) {
    limits.maxOrderSize > 0 ==> req.qty <= limits.maxOrderSize
  }

  predicate LossOk(limits: RiskLimits, book: Option<Book>) {
    limits.maxLoss > 0 && book.Some? ==> TotalPnl(book.value) >= -limits.maxLoss
  }

  predicate PositionOk(limits: RiskLimits, book: Option<Book>, req: OrderRequest) {
    limits.maxPositionPerSymbol > 0 && book.Some? ==>
      Abs(book.value.positions[req.symbol].netQty + Signed(req.side, req.qty)) <= limits.maxPositionPerSymbol
  }

  /** The first failing check names the verdict. */
  function Decide(limits: RiskLimits, killed: bool, book: Option<Book>, req: OrderRequest): (v: Verdict)
    ensures v == KillSwitch <==> killed
    ensures v == MaxOrderSize <==> !killed && 0 < limits.maxOrderSize < req.qty
    ensures v == MaxLoss <==> !killed && !(0 < limits.maxOrderSize < req.qty)
                              && 0 < limits.maxLoss && book.Some? && TotalPnl(book.value) < -limits.maxLoss
    ensures v in {Approved, MaxPosition} && limits.maxPositionPerSymbol > 0 && book.Some? ==>
              var net := book.value.positions[req.symbol].netQty;
              var expected := if req.side == Buy then net + req.qty else net - req.qty;
              v == Approved <==>
                expected <= limits.maxPositionPerSymbol && -expected <= limits.maxPositionPerSymbol
    ensures v == MaxPosition ==> limits.maxPositionPerSymbol > 0 && book.Some?
  {
    if killed then KillSwitch
    else if !SizeOk(limits, req) then MaxOrderSize
    else if !LossOk(limits, book) then MaxLoss
    else if !PositionOk(limits, book, req) then MaxPosition
    else Approved
  }

  class RiskEngine {
    const limits: RiskLimits
    const portfolio: Portfolio?
    var killed: bool

    ghost predicate Valid()
      reads this, portfolio, if portfolio == null then {} else {portfolio.positions}
    {
      portfolio != null ==> portfolio.Valid()
    }

    ghost function Book(): Option<Book>
      reads this, portfolio, if portfolio == null then {} else {portfolio.positions}
    {
      if portfolio == null then None else Some(LedgerRun(portfolio.config, portfolio.log))
    }

    constructor (limits: RiskLimits, portfolio: Portfolio?)
      requires portfolio != null ==> portfolio.Valid()
      ensures Valid() && !killed
      ensures this.limits == limits && this.portfolio == portfolio
    {
      this.limits := limits;
      this.portfolio := portfolio;
      killed := false;
    }

    method CheckPreTrade(req: OrderRequest) returns (verdict: Verdict)
      requires Valid()
      modifies this`killed
      ensures Valid()
      ensures verdict == Decide(limits, old(killed), Book(), req)
      ensures killed == (old(killed) || verdict == MaxLoss)
      ensures verdict == KillSwitch <==> old(killed)
      ensures verdict == MaxOrderSize <==> !old(killed) && 0 < limits.maxOrderSize < req.qty
      ensures verdict == MaxLoss <==>
              && !old(killed) && !(0 < limits.maxOrderSize < req.qty)
              && 0 < limits.maxLoss && portfolio != null
              && TotalPnl(LedgerRun(portfolio.config, portfolio.log)) < -limits.maxLoss
      ensures verdict in {Approved, MaxPosition} && limits.maxPositionPerSymbol > 0 && portfolio != null ==>
                var net := portfolio.positions[req.symbol].netQty;
                var expected := if req.side == Buy then net + req.qty else net - req.qty;
                verdict == Approved <==>
                  expected <= limits.maxPositionPerSymbol && -expected <= limits.maxPositionPerSymbol
      ensures verdict == MaxPosition ==> limits.maxPositionPerSymbol > 0 && portfolio != null
    {
      if killed {
        return KillSwitch;
      }
      if limits.maxOrderSize > 0 && req.qty > limits.maxOrderSize {
        return MaxOrderSize;
      }
      if limits.maxLoss > 0 && portfolio != null {
        var pnl := portfolio.TotalPnl();
        if pnl < -limits.maxLoss {
          killed := true;
          return MaxLoss;
        }
      }
      if limits.maxPositionPerSymbol > 0 && portfolio != null {
        var expected := portfolio.positions[req.symbol].netQty;
        if req.side == Buy {
          expected := expected + req.qty;
        } else {
          expected := expected - req.qty;
        }
        if Abs(expected) > limits.maxPositionPerSymbol {
          return MaxPosition;
        }
      }
      return Approved;
    }

    method TriggerKillSwitch()
      modifies this`killed
      ensures killed
    {
      killed := true;
    }
  }

  /** A position of `qty` opened at one price and marked at another. */
  function OpenThenMark(symbol: SymbolId, side: Side, qty: PosQty, open: int, mark: int): seq<LedgerEvent> {
    [LedgerEvent(symbol, Fill(side, qty, open)), LedgerEvent(symbol, Mark(mark))]
  }

  lemma OpenThenMarkPnl(cfg: Config, symbol: SymbolId, side: Side, qty: PosQty, open: int, mark: int)
    ensures TotalPnl(LedgerRun(cfg, OpenThenMark(symbol, side, qty, open, mark))) ==
            if side == Buy then (mark - open) * qty else (open - mark) * qty
  {
    hide LedgerRun, Step, SumOf, OpeningPositions, CountedPnl;
    var log, ps := OpenThenMark(symbol, side, qty, open, mark), OpeningPositions();
    var p := Step(Flat(symbol), log[0].event);
    var q := Step(p, log[1].event);
    assert log == [] + [log[0]] + [log[1]];
    LedgerRunSnoc(cfg, [], log[0]);
    LedgerRunSnoc(cfg, [] + [log[0]], log[1]);
    OpeningPnl(cfg, symbol);
    assert LedgerRun(cfg, log).positions == ps[symbol := q];
    SumOfUpdate(CountedPnl, ps, symbol, q);
    MarkedPnl(symbol, side, qty, open, mark);
  }

  lemma OpeningPnl(cfg: Config, symbol: SymbolId)
    ensures LedgerRun(cfg, []).positions == OpeningPositions() && OpeningPositions()[symbol] == Flat(symbol)
    ensures SumOf(CountedPnl, OpeningPositions()) == 0 && CountedPnl(Flat(symbol)) == 0
  {
    SumOfZero(CountedPnl, OpeningPositions());
  }

  lemma MarkedPnl(symbol: nat, side: Side, qty: PosQty, open: int, mark: int)
    ensures var q := Step(Step(Flat(symbol), Fill(side, qty, open)), Mark(mark));
            CountedPnl(q) == if side == Buy then (mark - open) * qty else (open - mark) * qty
  {
    OpeningAverage(Flat(symbol), side, qty, open);
    ShortMark(open, mark, -(qty as int));
  }

  /**
   The loss limit, in prices: on a position of `qty` opened at one price and marked at another, an
   order of legal size trips the switch if and only if the loss exceeds the limit.
   */
  lemma LossTripsIff(cfg: Config, limits: RiskLimits, symbol: SymbolId, side: Side, qty: PosQty, open: int, mark: int,
                     req: OrderRequest)
    requires limits.maxOrderSize == 0 || req.qty <= limits.maxOrderSize
    ensures var book := LedgerRun(cfg, OpenThenMark(symbol, side, qty, open, mark));
            var loss := if side == Buy then (open - mark) * qty else (mark - open) * qty;
            Decide(limits, false, Some(book), req) == MaxLoss <==> 0 < limits.maxLoss < loss
  {
    OpenThenMarkPnl(cfg, symbol, side, qty, open, mark);
    assert (open - mark) * qty == -((mark - open) * qty);
  }
}
