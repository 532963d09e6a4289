/**
 The whole portfolio as a value: cash and one position per symbol, driven by a log of fills
 and marks. `Portfolio` keeps its fields equal to `LedgerRun` of the events it has seen, so
 each law below holds of every reachable portfolio.
 */
module Ledgers {
  import opened Arithmetic
  import opened Positions
  import opened PnlConservation
  import opened FillLaws

  const MAX_SYMBOLS: nat := 256

  type SymbolId = n: nat | n < MAX_SYMBOLS

  datatype FeeModel = FeeModel(perShareFee: int, perTradeFee: int, makerRebate: int, takerFee: int) {
    function Compute(qty: nat, isMaker: bool): int {
      var exchangeFee := if isMaker then -makerRebate else takerFee;
      perShareFee * qty + exchangeFee * qty + perTradeFee
    }
  }

  datatype Config = Config(initialCash: int, fees: FeeModel)

  datatype LedgerEvent = LedgerEvent(symbol: SymbolId, event: PositionEvent)

  datatype Ledger = Ledger(cash: int, positions: seq<Position>)

  /** Every fill is charged as a taker. */
  function FeeOf(fees: FeeModel, e: LedgerEvent): int {
    match e.event
    case Fill(_, qty, _) => fees.Compute(qty, false)
    case EmptyFill(_) => fees.Compute(0, false)
    case Mark(_) => 0
  }

  function Post(cfg: Config, l: Ledger, e: LedgerEvent): Ledger
    requires |l.positions| == MAX_SYMBOLS
  {
    var before := l.positions[e.symbol];
    var after := Step(before, e.event);
    Ledger(l.cash - FeeOf(cfg.fees, e) + (after.realizedPnl - before.realizedPnl),
           l.positions[e.symbol := after])
  }

  function OpeningPositions(): seq<Position> {
    seq(MAX_SYMBOLS, (i: nat) => Flat(i))
  }

  function LedgerRun(cfg: Config, log: seq<LedgerEvent>): (l: Ledger)
    ensures |l.positions| == MAX_SYMBOLS
  {
    if log == [] then Ledger(cfg.initialCash, OpeningPositions())
    else Post(cfg, LedgerRun(cfg, log[..|log| - 1]), log[|log| - 1])
  }

  lemma LedgerRunSnoc(cfg: Config, log: seq<LedgerEvent>, e: LedgerEvent)
    ensures LedgerRun(cfg, log + [e]) == Post(cfg, LedgerRun(cfg, log), e)
  {
    assert (log + [e])[..|log|] == log;
  }

  /** The events of one symbol, in order. */
  function History(log: seq<LedgerEvent>, symbol: nat): seq<PositionEvent> {
    if log == [] then []
    else
      var init, e := log[..|log| - 1], log[|log| - 1];
      if e.symbol == symbol then History(init, symbol) + [e.event] else History(init, symbol)
  }

  /** Symbols do not interfere: each position is the run of that symbol's own events. */
  lemma {:induction false} PositionsAreRuns(cfg: Config, log: seq<LedgerEvent>, symbol: SymbolId)
    ensures LedgerRun(cfg, log).positions[symbol] == Run(symbol, History(log, symbol))
  {
    hide Step, Run;
    if log == [] {
      RunEmpty(symbol);
    } else {
      var init, e := log[..|log| - 1], log[|log| - 1];
      PositionsAreRuns(cfg, init, symbol);
      if e.symbol == symbol {
        RunSnoc(symbol, History(init, symbol), e.event);
      }
    }
  }

  // Sums over the positions of a ledger.

  function Realized(p: Position): int { p.realizedPnl }

  function Unrealized(p: Position): int { p.unrealizedPnl }

  function HeldValue(p: Position): int { p.netQty * p.lastPrice }

  function PositionPnl(p: Position): int { p.realizedPnl + p.unrealizedPnl }

  /** What `total_pnl` adds for a position: it skips one that looks untouched. */
  function CountedPnl(p: Position): int {
    if p.numTrades > 0 || p.netQty != 0 then p.realizedPnl + p.unrealizedPnl else 0
  }

  /** What `total_pnl` misses: the profit of a flat position whose trade counter has wrapped. */
  function SkippedPnl(p: Position): int {
    if p.numTrades == 0 && p.netQty == 0 then p.realizedPnl else 0
  }

  function TotalPnl(l: Ledger): int {
    SumOf(CountedPnl, l.positions)
  }

  function TotalEquity(l: Ledger): int {
    l.cash + TotalPnl(l)
  }

  function TotalFees(fees: FeeModel, log: seq<LedgerEvent>): int {
    SumOf((e: LedgerEvent) => FeeOf(fees, e), log)
  }

  function QtyOf(e: LedgerEvent): int { QtyIn(e.event) }

  function LogVolume(log: seq<LedgerEvent>): int {
    SumOf(QtyOf, log)
  }

  function CountOf(e: LedgerEvent): int { CountIn(e.event) }

  /** All fees of a log depend only on its volume and its number of fills. */
  lemma {:induction false} FeesByVolume(fees: FeeModel, log: seq<LedgerEvent>)
    ensures TotalFees(fees, log) ==
            (fees.perShareFee + fees.takerFee) * LogVolume(log) + fees.perTradeFee * SumOf(CountOf, log)
    decreases |log|
  {
    if log != [] {
      var init, e := log[..|log| - 1], log[|log| - 1];
      FeesByVolume(fees, init);
      var rate, flat := fees.perShareFee + fees.takerFee, fees.perTradeFee;
      FeeParts(fees, e);
      Distribute(rate, LogVolume(init), QtyOf(e));
      Distribute(flat, SumOf(CountOf, init), CountOf(e));
    }
  }

  lemma FeeParts(fees: FeeModel, e: LedgerEvent)
    ensures FeeOf(fees, e) == (fees.perShareFee + fees.takerFee) * QtyOf(e) + fees.perTradeFee * CountOf(e)
  {
  }

  function LogProceeds(log: seq<LedgerEvent>): int {
    SumOf((e: LedgerEvent) => Proceeds(e.event), log)
  }

  /** All division remainders dropped along the log. */
  function LogDropped(cfg: Config, log: seq<LedgerEvent>): int {
    if log == [] then 0
    else
      var init, e := log[..|log| - 1], log[|log| - 1];
      LogDropped(cfg, init) + Dropped(LedgerRun(cfg, init).positions[e.symbol], e.event)
  }

  /** What the account is worth by plain bookkeeping: no average price anywhere. */
  function Worth(cfg: Config, log: seq<LedgerEvent>): int {
    cfg.initialCash - TotalFees(cfg.fees, log) + LogProceeds(log)
    + SumOf(HeldValue, LedgerRun(cfg, log).positions)
  }

  /** Cash moves only by fees and by realised profit. */
  lemma {:induction false} CashIdentity(cfg: Config, log: seq<LedgerEvent>)
    ensures var l := LedgerRun(cfg, log);
            l.cash == cfg.initialCash - TotalFees(cfg.fees, log) + SumOf(Realized, l.positions)
  {
    if log == [] {
      SumOfZero(Realized, OpeningPositions());
    } else {
      var init, e := log[..|log| - 1], log[|log| - 1];
      CashIdentity(cfg, init);
      var before := LedgerRun(cfg, init);
      SumOfUpdate(Realized, before.positions, e.symbol, Step(before.positions[e.symbol], e.event));
    }
  }

  lemma {:induction false} LedgerBookValue(cfg: Config, log: seq<LedgerEvent>)
    ensures SumOf(BookValue, LedgerRun(cfg, log).positions) == LogProceeds(log) + LogDropped(cfg, log)
  {
    if log == [] {
      SumOfZero(BookValue, OpeningPositions());
    } else {
      var init, e := log[..|log| - 1], log[|log| - 1];
      LedgerBookValue(cfg, init);
      var ps := LedgerRun(cfg, init).positions;
      StepConserves(ps[e.symbol], e.event);
      SumOfUpdate(BookValue, ps, e.symbol, Step(ps[e.symbol], e.event));
    }
  }

  lemma ReachablePosition(cfg: Config, log: seq<LedgerEvent>, symbol: SymbolId)
    ensures var p := LedgerRun(cfg, log).positions[symbol];
            && p.unrealizedPnl == (p.lastPrice - p.avgEntryPrice) * p.netQty
            && FillCount(History(log, symbol)) >= 0
            && p.numTrades == FillCount(History(log, symbol)) % TRADE_COUNTER_RANGE
            && (FillCount(History(log, symbol)) == 0 ==> p.netQty == 0 && p.realizedPnl == 0)
            && PositionPnl(p) == BookValue(p) + HeldValue(p)
            && PositionPnl(p) == CountedPnl(p) + SkippedPnl(p)
  {
    hide LedgerRun, Run, History, FillCount;
    PositionsAreRuns(cfg, log, symbol);
    RunInvariant(symbol, History(log, symbol));
    MarkedValue(LedgerRun(cfg, log).positions[symbol]);
  }

  lemma SummedPnl(cfg: Config, log: seq<LedgerEvent>)
    ensures var ps := LedgerRun(cfg, log).positions;
            && SumOf(PositionPnl, ps) == SumOf(Realized, ps) + SumOf(Unrealized, ps)
            && SumOf(PositionPnl, ps) == SumOf(BookValue, ps) + SumOf(HeldValue, ps)
            && SumOf(PositionPnl, ps) == SumOf(CountedPnl, ps) + SumOf(SkippedPnl, ps)
  {
    var ps := LedgerRun(cfg, log).positions;
    forall i | 0 <= i < |ps|
      ensures PositionPnl(ps[i]) == BookValue(ps[i]) + HeldValue(ps[i])
      ensures PositionPnl(ps[i]) == CountedPnl(ps[i]) + SkippedPnl(ps[i])
    {
      ReachablePosition(cfg, log, i);
    }
    SumOfLinear(PositionPnl, Realized, Unrealized, ps);
    SumOfLinear(PositionPnl, BookValue, HeldValue, ps);
    SumOfLinear(PositionPnl, CountedPnl, SkippedPnl, ps);
  }

  /**
   `total_equity` against the account's real worth. Cash plus unrealised P&L is the worth up to
   the dropped remainders; `total_equity` adds the realised P&L to it a second time, less what a
   wrapped trade counter hides.
   */
  lemma EquityIdentity(cfg: Config, log: seq<LedgerEvent>)
    ensures var l := LedgerRun(cfg, log);
            && l.cash + SumOf(Unrealized, l.positions) == Worth(cfg, log) + LogDropped(cfg, log)
            && TotalEquity(l) == l.cash + SumOf(Unrealized, l.positions)
                                 + SumOf(Realized, l.positions) - SumOf(SkippedPnl, l.positions)
  {
    CashIdentity(cfg, log);
    LedgerBookValue(cfg, log);
    SummedPnl(cfg, log);
  }

  ghost predicate CountersUnwrapped(log: seq<LedgerEvent>) {
    forall s: SymbolId :: FillCount(History(log, s)) < 0x1_0000_0000
  }

  /**
   For every log, `total_equity` is cash plus the marked value of the positions exactly when the
   total realised P&L is what wrapped counters hide; the conditional sum of `total_pnl` is the plain
   sum exactly when they hide nothing in total. While no symbol has 2^32 fills, they do not.
   */
  lemma EquityMatchesHeaderIff(cfg: Config, log: seq<LedgerEvent>)
    ensures var l := LedgerRun(cfg, log);
            && (TotalEquity(l) == l.cash + SumOf(Unrealized, l.positions)
                <==> SumOf(Realized, l.positions) == SumOf(SkippedPnl, l.positions))
            && (TotalPnl(l) == SumOf(Realized, l.positions) + SumOf(Unrealized, l.positions)
                <==> SumOf(SkippedPnl, l.positions) == 0)
            && (CountersUnwrapped(log) ==> SumOf(SkippedPnl, l.positions) == 0)
  {
    SummedPnl(cfg, log);
    EquityIdentity(cfg, log);
    if CountersUnwrapped(log) {
      NothingSkipped(cfg, log);
    }
  }

  lemma NothingSkipped(cfg: Config, log: seq<LedgerEvent>)
    requires CountersUnwrapped(log)
    ensures SumOf(SkippedPnl, LedgerRun(cfg, log).positions) == 0
  {
    var ps := LedgerRun(cfg, log).positions;
    forall i | 0 <= i < |ps|
      ensures SkippedPnl(ps[i]) == 0
    {
      var s: SymbolId := i;
      ReachablePosition(cfg, log, s);
      assert FillCount(History(log, s)) < TRADE_COUNTER_RANGE;
    }
    SumOfZero(SkippedPnl, ps);
  }

  function OneTrip(): seq<LedgerEvent> {
    [LedgerEvent(0, Fill(Buy, 1, 0)), LedgerEvent(0, Fill(Sell, 1, 1))]
  }

  lemma OneTripPositions(cfg: Config)
    ensures LedgerRun(cfg, OneTrip()).positions ==
            OpeningPositions()[0 := ApplyFill(ApplyFill(Flat(0), Buy, 1, 0), Sell, 1, 1)]
  {
    hide ApplyFill;
    var log := OneTrip();
    assert log == [] + [log[0]] + [log[1]];
    LedgerRunSnoc(cfg, [], log[0]);
    LedgerRunSnoc(cfg, [] + [log[0]], log[1]);
  }

  /** One profitable round trip, and the profit is reported twice. */
  lemma EquityDoubleCounts(cfg: Config)
    ensures var l := LedgerRun(cfg, OneTrip());
            TotalEquity(l) == l.cash + SumOf(Unrealized, l.positions) + 1
  {
    hide LedgerRun, ApplyFill, OneTrip;
    var ps, q := OpeningPositions(), ApplyFill(ApplyFill(Flat(0), Buy, 1, 0), Sell, 1, 1);
    OneTripPositions(cfg);
    OneRoundTrip(Flat(0));
    SumOfZero(CountedPnl, ps);
    SumOfZero(Unrealized, ps);
    SumOfUpdate(CountedPnl, ps, 0, q);
    SumOfUpdate(Unrealized, ps, 0, q);
  }

  /** Buy one at 0 and sell it at 1, `n` times. */
  function RoundTrips(n: nat): seq<PositionEvent> {
    if n == 0 then [] else RoundTrips(n - 1) + [Fill(Buy, 1, 0), Fill(Sell, 1, 1)]
  }

  lemma OneRoundTrip(p: Position)
    requires p.netQty == 0 && p.numTrades < TRADE_COUNTER_RANGE
    ensures var q := ApplyFill(ApplyFill(p, Buy, 1, 0), Sell, 1, 1);
            && q.netQty == 0 && q.unrealizedPnl == 0
            && q.realizedPnl == p.realizedPnl + 1
            && q.numTrades == (p.numTrades + 2) % TRADE_COUNTER_RANGE
  {
    OpeningAverage(p, Buy, 1, 0);
  }

  lemma {:induction false} RoundTripsRun(symbol: nat, n: nat)
    ensures var p := Run(symbol, RoundTrips(n));
            && p.netQty == 0 && p.unrealizedPnl == 0 && p.realizedPnl == n
            && p.numTrades == 2 * n % TRADE_COUNTER_RANGE
  {
    if n > 0 {
      RoundTripsRun(symbol, n - 1);
      var es, e0, e1 := RoundTrips(n - 1), Fill(Buy, 1, 0), Fill(Sell, 1, 1);
      assert RoundTrips(n) == es + [e0] + [e1];
      assert Run(symbol, RoundTrips(n)) == ApplyFill(ApplyFill(Run(symbol, es), Buy, 1, 0), Sell, 1, 1) by {
        RunSnoc(symbol, es, e0);
        RunSnoc(symbol, es + [e0], e1);
      }
      OneRoundTrip(Run(symbol, es));
      CountTwo(2 * (n - 1));
    }
  }

  lemma CountTwo(n: nat)
    ensures (n % TRADE_COUNTER_RANGE + 2) % TRADE_COUNTER_RANGE == (n + 2) % TRADE_COUNTER_RANGE
  {
  }

  /** The counter's wrap is visible: after 2^32 fills a profitable flat position is not counted. */
  lemma WrappedCounterHidesPnl(symbol: nat)
    ensures var p := Run(symbol, RoundTrips(0x8000_0000));
            PositionPnl(p) == 0x8000_0000 && CountedPnl(p) == 0
  {
    RoundTripsRun(symbol, 0x8000_0000);
  }

  // Laws of fills at the level of the whole ledger.

  /** m pieces cost m - 1 flat fees more than one fill. */
  lemma {:induction false} SplitFees(fees: FeeModel, qs: seq<PosQty>)
    requires qs != []
    ensures SumOf((q: PosQty) => fees.Compute(q, false), qs) ==
            fees.Compute(Total(qs), false) + (|qs| - 1) * fees.perTradeFee
    decreases |qs|
  {
    var init, last := qs[..|qs| - 1], qs[|qs| - 1];
    if init != [] {
      SplitFees(fees, init);
      Distribute(fees.perShareFee, Total(init), last);
      Distribute(fees.takerFee, Total(init), last);
      assert (|qs| - 1) * fees.perTradeFee == (|init| - 1) * fees.perTradeFee + fees.perTradeFee;
    } else {
      assert Total(init) == 0;
    }
  }

  function MirrorLog(log: seq<LedgerEvent>): seq<LedgerEvent> {
    seq(|log|, i requires 0 <= i < |log| => LedgerEvent(log[i].symbol, MirrorEvent(log[i].event)))
  }

  /** Mirroring a log mirrors every position, keeps the fees and reflects the profit in cash. */
  lemma {:induction false} MirrorLedger(cfg: Config, log: seq<LedgerEvent>)
    ensures var l, m := LedgerRun(cfg, log), LedgerRun(cfg, MirrorLog(log));
            && TotalFees(cfg.fees, MirrorLog(log)) == TotalFees(cfg.fees, log)
            && m.cash + l.cash == 2 * (cfg.initialCash - TotalFees(cfg.fees, log))
            && forall s: SymbolId :: m.positions[s] == MirrorPosition(l.positions[s])
  {
    hide Step;
    if log != [] {
      var init, e := log[..|log| - 1], log[|log| - 1];
      MirrorLedger(cfg, init);
      assert MirrorLog(log)[..|log| - 1] == MirrorLog(init);
      MirrorStep(LedgerRun(cfg, init).positions[e.symbol], e.event);
    }
  }
}
