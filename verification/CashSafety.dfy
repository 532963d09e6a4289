/**
 When the 64-bit arithmetic on fees, cash and equity is safe.
 */
module CashSafety {
  import opened Arithmetic
  import opened Positions
  import opened FillLaws
  import opened Ledgers
  import opened Overflow

  function FeeRate(fees: FeeModel): nat {
    Abs(fees.perShareFee) + Abs(fees.takerFee) + Abs(fees.perTradeFee)
  }

  /** Every value the cash arithmetic of posting `e` computes on the way from `l` to `m`. */
  function CashValues(fees: FeeModel, l: Ledger, e: LedgerEvent, m: Ledger): set<int> {
    var q := QtyOf(e);
    {fees.perShareFee * q, fees.takerFee * q, fees.perShareFee * q + fees.takerFee * q,
     FeeOf(fees, e), l.cash - FeeOf(fees, e), m.cash, TotalEquity(m)}
  }

  /** What a fill is charged for: its units, or one if it has none. */
  function ChargeOf(e: LedgerEvent): int {
    match e.event
    case Fill(_, qty, _) => qty
    case EmptyFill(_) => 1
    case Mark(_) => 0
  }

  function LogCharge(log: seq<LedgerEvent>): int {
    SumOf(ChargeOf, log)
  }

  lemma FeeBound(fees: FeeModel, e: LedgerEvent)
    ensures var c, q, w := FeeRate(fees), QtyOf(e), ChargeOf(e);
            && 0 <= q <= w
            && Abs(FeeOf(fees, e)) <= c * w
            && Abs(fees.perShareFee * q) <= c * w
            && Abs(fees.takerFee * q) <= c * w
            && Abs(fees.perShareFee * q + fees.takerFee * q) <= c * w
  {
    if e.event.EmptyFill? {
      return;
    }
    var q := QtyOf(e);
    var share, taker, flat := Abs(fees.perShareFee), Abs(fees.takerFee), Abs(fees.perTradeFee);
    MulBound(fees.perShareFee, q, share, q);
    MulBound(fees.takerFee, q, taker, q);
    RateTimes(share, taker, flat, q);
  }

  lemma RateTimes(x: nat, y: nat, z: nat, q: nat)
    ensures (x + y + z) * q == x * q + y * q + z * q
    ensures x * q >= 0 && y * q >= 0 && z * q >= 0
    ensures q > 0 ==> z <= z * q
  {
    if q > 0 {
      MulMono(z, z, 1, q);
    }
  }

  lemma FeeTotal(fees: FeeModel, log: seq<LedgerEvent>, W: nat)
    requires LogCharge(log) <= W
    ensures Abs(TotalFees(fees, log)) <= FeeRate(fees) * W
  {
    var fee := (e: LedgerEvent) => FeeOf(fees, e);
    forall i | 0 <= i < |log|
      ensures ChargeOf(log[i]) >= 0 && Abs(fee(log[i])) <= FeeRate(fees) * ChargeOf(log[i])
    {
      FeeBound(fees, log[i]);
    }
    SumOfBound(fee, ChargeOf, FeeRate(fees), log);
    MulMono(FeeRate(fees), FeeRate(fees), LogCharge(log), W);
  }

  lemma PnlTotal(cfg: Config, log: seq<LedgerEvent>, P: nat, V: nat)
    requires PricesWithin(log, P) && LogVolume(log) <= V
    ensures var l := LedgerRun(cfg, log);
            && Abs(SumOf(Realized, l.positions)) <= P * LogVolume(log) <= P * V
            && Abs(SumOf(Realized, l.positions) + TotalPnl(l)) <= 2 * (P * LogVolume(log)) <= 2 * (P * V)
  {
    LedgerBounded(cfg, log, P);
    BoundedTotals(LedgerRun(cfg, log).positions, P);
    MulMono(P, P, LogVolume(log), V);
  }

  /** What a position adds to the total equity: realised profit in cash, and all profit again. */
  function ProfitTwice(p: Position): int { Realized(p) + CountedPnl(p) }

  /** Realised profit is charged to volume no longer held, so adding it once more costs no extra volume. */
  lemma ProfitBound(p: Position, P: nat)
    requires Bounded(p, P)
    ensures TradedBy(p) >= 0
    ensures Abs(Realized(p)) <= P * TradedBy(p)
    ensures Abs(ProfitTwice(p)) <= (2 * P) * TradedBy(p)
  {
    SplitVolume(P, p.totalTraded - Abs(p.netQty), Abs(p.netQty));
  }

  lemma BoundedTotals(ps: seq<Position>, P: nat)
    requires forall i :: 0 <= i < |ps| ==> Bounded(ps[i], P)
    ensures SumOf(TradedBy, ps) >= 0
    ensures Abs(SumOf(Realized, ps)) <= P * SumOf(TradedBy, ps)
    ensures Abs(SumOf(Realized, ps) + SumOf(CountedPnl, ps)) <= 2 * (P * SumOf(TradedBy, ps))
  {
    hide Bounded;
    forall i | 0 <= i < |ps|
      ensures TradedBy(ps[i]) >= 0
      ensures Abs(Realized(ps[i])) <= P * TradedBy(ps[i])
      ensures Abs(ProfitTwice(ps[i])) <= (2 * P) * TradedBy(ps[i])
    {
      ProfitBound(ps[i], P);
    }
    SumOfBound(Realized, TradedBy, P, ps);
    SumOfBound(ProfitTwice, TradedBy, 2 * P, ps);
    SumOfLinear(ProfitTwice, Realized, CountedPnl, ps);
    DoubleProduct(P, SumOf(TradedBy, ps));
  }

  lemma DoubleProduct(x: int, y: int)
    ensures 2 * x * y == 2 * (x * y)
  {
  }

  /** Cash and equity stay in range too once the opening balance and the fees are allowed for. */
  lemma CashFits(cfg: Config, log: seq<LedgerEvent>, k: nat, P: nat, V: nat, W: nat)
    requires k < |log| && PricesWithin(log, P) && LogVolume(log) <= V && LogCharge(log) <= W
    requires Abs(cfg.initialCash) + FeeRate(cfg.fees) * W + 2 * (P * V) < INT64_LIMIT
    ensures AllFit(CashValues(cfg.fees, LedgerRun(cfg, log[..k]), log[k], LedgerRun(cfg, log[..k + 1])))
  {
    hide SumOf, LedgerRun, FeeOf, TotalPnl, TotalFees, FeeRate;
    var l, m := LedgerRun(cfg, log[..k]), LedgerRun(cfg, log[..k + 1]);
    var feeMax, pnlMax := FeeRate(cfg.fees) * W, P * V;
    var paid, r0, r1 := TotalFees(cfg.fees, log[..k + 1]), SumOf(Realized, l.positions), SumOf(Realized, m.positions);
    FeeWithin(cfg.fees, log, k, W);
    CashParts(cfg, log, k);
    PartOfSum(QtyOf, log, k);
    PartOfSum(QtyOf, log, k + 1);
    PartOfSum(ChargeOf, log, k + 1);
    FeeTotal(cfg.fees, log[..k + 1], W);
    PnlTotal(cfg, log[..k], P, V);
    PnlTotal(cfg, log[..k + 1], P, V);
    var q, fee := QtyOf(log[k]), FeeOf(cfg.fees, log[k]);
    RangeOf(cfg.fees.perShareFee * q, cfg.fees.takerFee * q, fee, cfg.initialCash, paid, r0, r1, TotalPnl(m),
            feeMax, pnlMax);
  }

  /** Cash before and after an event, split into opening balance, fees paid and profit taken. */
  lemma CashParts(cfg: Config, log: seq<LedgerEvent>, k: nat)
    requires k < |log|
    ensures var l, m := LedgerRun(cfg, log[..k]), LedgerRun(cfg, log[..k + 1]);
            var paid := TotalFees(cfg.fees, log[..k + 1]);
            && l.cash - FeeOf(cfg.fees, log[k]) == cfg.initialCash - paid + SumOf(Realized, l.positions)
            && m.cash == cfg.initialCash - paid + SumOf(Realized, m.positions)
  {
    CashIdentity(cfg, log[..k]);
    CashIdentity(cfg, log[..k + 1]);
    assert log[..k + 1] == log[..k] + [log[k]];
    SumOfSnoc((e: LedgerEvent) => FeeOf(cfg.fees, e), log[..k], log[k]);
  }

  lemma FeeWithin(fees: FeeModel, log: seq<LedgerEvent>, k: nat, W: nat)
    requires k < |log| && LogCharge(log) <= W
    ensures var q, feeMax := QtyOf(log[k]), FeeRate(fees) * W;
            && Abs(fees.perShareFee * q) <= feeMax
            && Abs(fees.takerFee * q) <= feeMax
            && Abs(fees.perShareFee * q + fees.takerFee * q) <= feeMax
            && Abs(FeeOf(fees, log[k])) <= feeMax
  {
    PartOfSum(ChargeOf, log, k);
    FeeBound(fees, log[k]);
    MulMono(FeeRate(fees), FeeRate(fees), ChargeOf(log[k]), W);
  }

  lemma RangeOf(share: int, taker: int, fee: int, initial: int, paid: int, r0: int, r1: int, pnl: int,
                feeMax: int, pnlMax: int)
    requires Abs(initial) + feeMax + 2 * pnlMax < INT64_LIMIT
    requires Abs(share) <= feeMax && Abs(taker) <= feeMax && Abs(share + taker) <= feeMax
    requires Abs(fee) <= feeMax && Abs(paid) <= feeMax
    requires Abs(r0) <= pnlMax && Abs(r1) <= pnlMax && Abs(r1 + pnl) <= 2 * pnlMax
    ensures InInt64(share) && InInt64(taker) && InInt64(share + taker) && InInt64(fee)
    ensures InInt64(initial - paid + r0) && InInt64(initial - paid + r1) && InInt64(initial - paid + r1 + pnl)
  {
  }

  // Exactly when, for fees that are not rebates.

  predicate FeesNotNegative(fees: FeeModel) {
    fees.perShareFee >= 0 && fees.takerFee >= 0 && fees.perTradeFee >= 0
  }

  function ShareRate(fees: FeeModel): int { fees.perShareFee + fees.takerFee }

  /** The fee of one fill of V. */
  function WholeFee(fees: FeeModel, V: nat): int { ShareRate(fees) * V + fees.perTradeFee }

  /** The fees of V fills of one. */
  function PieceFees(fees: FeeModel, V: nat): int { (ShareRate(fees) + fees.perTradeFee) * V }

  /** The highest value of cash or equity: all profit at one fee, or no trade at all. */
  function Highest(cfg: Config, P: nat, V: nat): int {
    cfg.initialCash + if 2 * (P * V) > WholeFee(cfg.fees, V) then 2 * (P * V) - WholeFee(cfg.fees, V) else 0
  }

  /** The lowest one: all loss, and a flat fee on every unit. */
  function Lowest(cfg: Config, P: nat, V: nat): int {
    cfg.initialCash - PieceFees(cfg.fees, V) - 2 * (P * V)
  }

  ghost predicate CashSafe(cfg: Config, log: seq<LedgerEvent>) {
    forall k :: 0 <= k < |log| ==>
      AllFit(CashValues(cfg.fees, LedgerRun(cfg, log[..k]), log[k], LedgerRun(cfg, log[..k + 1])))
  }

  lemma {:induction false} ChargesCount(log: seq<LedgerEvent>)
    ensures 0 <= LogVolume(log) <= LogCharge(log)
    ensures 0 <= SumOf(CountOf, log) <= LogCharge(log)
    ensures LogVolume(log) > 0 ==> SumOf(CountOf, log) > 0
  {
    if log != [] {
      ChargesCount(log[..|log| - 1]);
    }
  }

  lemma FeesBetween(fees: FeeModel, log: seq<LedgerEvent>, V: nat)
    requires FeesNotNegative(fees) && LogCharge(log) <= V
    ensures var paid, v := TotalFees(fees, log), LogVolume(log);
            && 0 <= v <= V
            && 0 <= paid <= PieceFees(fees, V)
            && (v > 0 ==> WholeFee(fees, v) <= paid)
  {
    hide SumOf, FeeOf;
    var r, f, v, n := ShareRate(fees), fees.perTradeFee, LogVolume(log), SumOf(CountOf, log);
    ChargesCount(log);
    FeesByVolume(fees, log);
    MulMono(r, r, v, V);
    MulMono(f, f, n, V);
    assert r * v >= 0;
    assert (r + f) * V == r * V + f * V;
    if v > 0 {
      MulMono(f, f, 1, n);
    }
  }

  /** Gain less fees is largest for the whole volume, or for none of it. */
  lemma GainWithin(P: nat, r: nat, f: nat, v: nat, V: nat)
    requires 0 < v <= V
    ensures var net := 2 * (P * V) - (r * V + f);
            2 * (P * v) - (r * v + f) <= if net > 0 then net else 0
  {
    if 2 * P >= r {
      MulMono(2 * P - r, 2 * P - r, v, V);
      assert (2 * P - r) * v == 2 * (P * v) - r * v && (2 * P - r) * V == 2 * (P * V) - r * V;
    } else {
      MulMono(2 * P, r, v, v);
      DoubleProduct(P, v);
    }
  }

  /** Cash or equity: opening balance less fees plus a profit that the volume bounds. */
  lemma BalanceWithin(cfg: Config, log: seq<LedgerEvent>, P: nat, V: nat, profit: int)
    requires FeesNotNegative(cfg.fees) && LogCharge(log) <= V
    requires Abs(profit) <= 2 * (P * LogVolume(log))
    ensures Lowest(cfg, P, V) <= cfg.initialCash - TotalFees(cfg.fees, log) + profit <= Highest(cfg, P, V)
  {
    hide TotalFees, LogCharge, LogVolume, PieceFees;
    var v := LogVolume(log);
    FeesBetween(cfg.fees, log, V);
    MulMono(P, P, v, V);
    if v > 0 {
      GainWithin(P, ShareRate(cfg.fees), cfg.fees.perTradeFee, v, V);
    } else {
      assert P * v == 0;
    }
  }

  lemma FeeWithinWhole(fees: FeeModel, e: LedgerEvent, V: nat)
    requires FeesNotNegative(fees) && ChargeOf(e) <= V
    ensures var q := QtyOf(e);
            && 0 <= fees.perShareFee * q <= WholeFee(fees, V)
            && 0 <= fees.takerFee * q <= WholeFee(fees, V)
            && 0 <= fees.perShareFee * q + fees.takerFee * q <= WholeFee(fees, V)
            && 0 <= FeeOf(fees, e) <= WholeFee(fees, V)
  {
    var q := QtyOf(e);
    MulMono(fees.perShareFee, fees.perShareFee, q, V);
    MulMono(fees.takerFee, fees.takerFee, q, V);
    assert fees.perShareFee * q >= 0 && fees.takerFee * q >= 0;
    Distribute(V, fees.perShareFee, fees.takerFee);
  }

  lemma StepCashSafe(cfg: Config, log: seq<LedgerEvent>, k: nat, P: nat, V: nat)
    requires FeesNotNegative(cfg.fees)
    requires k < |log| && PricesWithin(log, P) && LogCharge(log) <= V
    requires WholeFee(cfg.fees, V) < INT64_LIMIT
    requires -INT64_LIMIT <= Lowest(cfg, P, V) && Highest(cfg, P, V) < INT64_LIMIT
    ensures AllFit(CashValues(cfg.fees, LedgerRun(cfg, log[..k]), log[k], LedgerRun(cfg, log[..k + 1])))
  {
    hide SumOf, LedgerRun, Lowest, Highest, WholeFee, FeeOf, TotalPnl, TotalFees;
    var l, m, now := LedgerRun(cfg, log[..k]), LedgerRun(cfg, log[..k + 1]), log[..k + 1];
    assert now == log[..k] + [log[k]];
    SumOfSnoc(QtyOf, log[..k], log[k]);
    ChargesCount(now);
    forall i | 0 <= i < |log|
      ensures ChargeOf(log[i]) >= QtyOf(log[i]) >= 0
    {
    }
    PartOfSum(ChargeOf, log, k);
    PartOfSum(ChargeOf, log, k + 1);
    FeeWithinWhole(cfg.fees, log[k], V);
    CashParts(cfg, log, k);
    PnlTotal(cfg, log[..k], P, LogVolume(now));
    PnlTotal(cfg, now, P, LogVolume(now));
    BalanceWithin(cfg, now, P, V, SumOf(Realized, l.positions));
    BalanceWithin(cfg, now, P, V, SumOf(Realized, m.positions));
    BalanceWithin(cfg, now, P, V, SumOf(Realized, m.positions) + TotalPnl(m));
  }

  // Logs of a single symbol, on which the bounds are reached.

  function Single(es: seq<PositionEvent>): seq<LedgerEvent> {
    if es == [] then [] else Single(es[..|es| - 1]) + [LedgerEvent(0, es[|es| - 1])]
  }

  function ChargeIn(e: PositionEvent): int { ChargeOf(LedgerEvent(0, e)) }

  lemma {:induction false} SingleRun(cfg: Config, es: seq<PositionEvent>)
    ensures |Single(es)| == |es|
    ensures LedgerRun(cfg, Single(es)).positions == OpeningPositions()[0 := Run(0, es)]
    ensures LogVolume(Single(es)) == Volume(es) && LogCharge(Single(es)) == SumOf(ChargeIn, es)
    ensures SumOf(CountOf, Single(es)) == FillCount(es)
  {
    hide Step, OpeningPositions;
    if es == [] {
      assert OpeningPositions()[0 := Flat(0)] == OpeningPositions() by { OpeningFlat(); }
    } else {
      var init, e := es[..|es| - 1], es[|es| - 1];
      SingleRun(cfg, init);
      OpeningFlat();
      LedgerRunSnoc(cfg, Single(init), LedgerEvent(0, e));
      SumOfSnoc(QtyOf, Single(init), LedgerEvent(0, e));
      SumOfSnoc(ChargeOf, Single(init), LedgerEvent(0, e));
      SumOfSnoc(CountOf, Single(init), LedgerEvent(0, e));
    }
  }

  lemma OpeningFlat()
    ensures |OpeningPositions()| == MAX_SYMBOLS && OpeningPositions()[0] == Flat(0)
  {
  }

  lemma SingleEquity(cfg: Config, es: seq<PositionEvent>)
    ensures TotalEquity(LedgerRun(cfg, Single(es))) ==
            cfg.initialCash - ShareRate(cfg.fees) * Volume(es) - cfg.fees.perTradeFee * FillCount(es)
            + Run(0, es).realizedPnl + CountedPnl(Run(0, es))
  {
    hide Run, LedgerRun, SumOf, FeeOf, CountedPnl;
    SingleRun(cfg, es);
    CashIdentity(cfg, Single(es));
    FeesByVolume(cfg.fees, Single(es));
    OpeningSums(Run(0, es));
  }

  lemma OpeningSums(p: Position)
    ensures SumOf(Realized, OpeningPositions()[0 := p]) == p.realizedPnl
    ensures SumOf(CountedPnl, OpeningPositions()[0 := p]) == CountedPnl(p)
  {
    SumOfZero(Realized, OpeningPositions());
    SumOfZero(CountedPnl, OpeningPositions());
    SumOfUpdate(Realized, OpeningPositions(), 0, p);
    SumOfUpdate(CountedPnl, OpeningPositions(), 0, p);
  }

  /** A single-symbol log whose last equity or fee does not fit is not safe. */
  lemma SingleUnsafe(cfg: Config, es: seq<PositionEvent>)
    requires es != []
    requires !InInt64(TotalEquity(LedgerRun(cfg, Single(es)))) ||
             !InInt64(FeeOf(cfg.fees, LedgerEvent(0, es[|es| - 1])))
    ensures !CashSafe(cfg, Single(es))
  {
    hide LedgerRun, FeeOf, TotalEquity, CashValues, SumOf, OpeningPositions;
    var log := Single(es);
    SingleRun(cfg, es);
    var k := |log| - 1;
    assert log[..k + 1] == log && log[k] == LedgerEvent(0, es[|es| - 1]);
    LastValues(cfg.fees, LedgerRun(cfg, log[..k]), log[k], LedgerRun(cfg, log[..k + 1]));
  }

  lemma LastValues(fees: FeeModel, l: Ledger, e: LedgerEvent, m: Ledger)
    ensures TotalEquity(m) in CashValues(fees, l, e, m) && FeeOf(fees, e) in CashValues(fees, l, e, m)
  {
  }

  /** `n` buys of one unit at the highest price. */
  function UnitBuys(P: nat, n: nat): seq<PositionEvent> {
    if n == 0 then [] else UnitBuys(P, n - 1) + [Fill(Buy, 1, P)]
  }

  /** Buys at one price keep it as the average. */
  lemma BuyAt(p: Position, qty: PosQty, price: int)
    requires p.netQty >= 0 && (p.netQty > 0 ==> p.avgEntryPrice == price)
    ensures var q := ApplyFill(p, Buy, qty, price);
            q.netQty == p.netQty + qty && q.avgEntryPrice == price && q.realizedPnl == p.realizedPnl
  {
    if p.netQty == 0 {
      OpeningAverage(p, Buy, qty, price);
    } else {
      Distribute(price, p.netQty, qty);
      TruncDivExact(price, p.netQty + qty);
    }
  }

  lemma {:induction false} UnitBuysRun(P: nat, n: nat)
    ensures var es, p := UnitBuys(P, n), Run(0, UnitBuys(P, n));
            && Volume(es) == FillCount(es) == SumOf(ChargeIn, es) == n
            && p.netQty == n && p.realizedPnl == 0 && (n > 0 ==> p.avgEntryPrice == P)
            && forall i :: 0 <= i < |es| ==> es[i].price == P
  {
    hide SumOf, ApplyFill, Run;
    if n == 0 {
      NothingRun();
    } else {
      var es, e := UnitBuys(P, n - 1), Fill(Buy, 1, P);
      UnitBuysRun(P, n - 1);
      RunSnoc(0, es, e);
      BuyAt(Run(0, es), 1, P);
      SumsSnoc(es, e);
    }
  }

  lemma NothingRun()
    ensures Run(0, []) == Flat(0) && Volume([]) == FillCount([]) == SumOf(ChargeIn, []) == 0
  {
  }

  lemma SumsSnoc(es: seq<PositionEvent>, e: PositionEvent)
    ensures Volume(es + [e]) == Volume(es) + QtyIn(e)
    ensures FillCount(es + [e]) == FillCount(es) + CountIn(e)
    ensures SumOf(ChargeIn, es + [e]) == SumOf(ChargeIn, es) + ChargeIn(e)
  {
    SumOfSnoc(QtyIn, es, e);
    SumOfSnoc(CountIn, es, e);
    SumOfSnoc(ChargeIn, es, e);
  }

  lemma {:induction false} SinglePrices(es: seq<PositionEvent>, P: nat)
    requires forall i :: 0 <= i < |es| ==> Abs(es[i].price) <= P
    ensures PricesWithin(Single(es), P)
  {
    if es != [] {
      SinglePrices(es[..|es| - 1], P);
    }
  }

  lemma MarkedProfit(p: Position, price: int)
    requires p.netQty > 0 && p.realizedPnl == 0
    ensures var q := MarkTo(p, price);
            q.realizedPnl == 0 && CountedPnl(q) == (price - p.avgEntryPrice) * p.netQty
  {
  }

  /** The worth of buys followed by one mark. */
  lemma BuysMarked(cfg: Config, buys: seq<PositionEvent>, price: int)
    requires Run(0, buys).netQty > 0 && Run(0, buys).realizedPnl == 0
    ensures var p := Run(0, buys);
            TotalEquity(LedgerRun(cfg, Single(buys + [Mark(price)]))) ==
            cfg.initialCash - ShareRate(cfg.fees) * Volume(buys) - cfg.fees.perTradeFee * FillCount(buys)
            + (price - p.avgEntryPrice) * p.netQty
    ensures LogCharge(Single(buys + [Mark(price)])) == SumOf(ChargeIn, buys)
  {
    hide SumOf, Run, LedgerRun, TotalEquity, MarkTo, CountedPnl, Single, OpeningPositions;
    var es := buys + [Mark(price)];
    RunSnoc(0, buys, Mark(price));
    SumsSnoc(buys, Mark(price));
    MarkedProfit(Run(0, buys), price);
    SingleRun(cfg, es);
    SingleEquity(cfg, es);
  }

  /** Every unit bought on its own at P, then marked at -P. */
  lemma LowestReached(cfg: Config, P: nat, V: PosQty) returns (es: seq<PositionEvent>)
    ensures es != [] && PricesWithin(Single(es), P) && LogCharge(Single(es)) == V
    ensures TotalEquity(LedgerRun(cfg, Single(es))) == Lowest(cfg, P, V)
  {
    hide SumOf, Run, LedgerRun, TotalEquity, LogCharge, Single, PricesWithin;
    var buys := UnitBuys(P, V);
    es := buys + [Mark(-(P as int))];
    UnitBuysRun(P, V);
    SinglePrices(es, P);
    BuysMarked(cfg, buys, -(P as int));
    assert (-(P as int) - P) * V == -2 * (P * V);
    Distribute(V, ShareRate(cfg.fees), cfg.fees.perTradeFee);
  }

  /** All V bought at -P at once and marked at P, or no trade. */
  lemma HighestReached(cfg: Config, P: nat, V: PosQty) returns (es: seq<PositionEvent>)
    ensures es != [] && PricesWithin(Single(es), P) && LogCharge(Single(es)) <= V
    ensures TotalEquity(LedgerRun(cfg, Single(es))) == Highest(cfg, P, V)
  {
    hide SumOf, Run, LedgerRun, TotalEquity, LogCharge, Single, PricesWithin, ApplyFill;
    if 2 * (P * V) > WholeFee(cfg.fees, V) {
      var buy := Fill(Buy, V, -(P as int));
      es := [buy] + [Mark(P)];
      OneFill(V, -(P as int));
      BuysMarked(cfg, [buy], P);
      assert (P + P) * V == 2 * (P * V);
    } else {
      es := [Mark(0)];
      QuietMark(cfg);
    }
    SinglePrices(es, P);
  }

  lemma OneFill(qty: PosQty, price: int)
    ensures var es := [Fill(Buy, qty, price)];
            var p := Run(0, es);
            && Volume(es) == SumOf(ChargeIn, es) == qty && FillCount(es) == 1
            && p.netQty == qty && p.realizedPnl == 0 && p.avgEntryPrice == price
  {
    hide SumOf, Run, ApplyFill;
    var e := Fill(Buy, qty, price);
    assert [] + [e] == [e];
    NothingRun();
    RunSnoc(0, [], e);
    SumsSnoc([], e);
    BuyAt(Flat(0), qty, price);
  }

  lemma QuietMark(cfg: Config)
    ensures LogCharge(Single([Mark(0)])) == 0 && TotalEquity(LedgerRun(cfg, Single([Mark(0)]))) == cfg.initialCash
  {
    hide SumOf, Run, LedgerRun, TotalEquity, Single, OpeningPositions, LogVolume, FillCount, Volume, LogCharge;
    assert [] + [Mark(0)] == [Mark(0)];
    NothingRun();
    assert MarkTo(Flat(0), 0) == Flat(0);
    assert Run(0, [Mark(0)]) == Flat(0) by { RunSnoc(0, [], Mark(0)); }
    SumsSnoc([], Mark(0));
    assert LogCharge(Single([Mark(0)])) == 0 by { SingleRun(cfg, [Mark(0)]); }
    SingleEquity(cfg, [Mark(0)]);
  }

  /** One fill of V pays the largest fee. */
  lemma WholeFeeReached(cfg: Config, P: nat, V: PosQty) returns (es: seq<PositionEvent>)
    ensures es != [] && PricesWithin(Single(es), P) && LogCharge(Single(es)) == V
    ensures FeeOf(cfg.fees, LedgerEvent(0, es[|es| - 1])) == WholeFee(cfg.fees, V)
  {
    es := [Fill(Buy, V, 0)];
    assert es[..0] == [];
    SinglePrices(es, P);
    SingleRun(cfg, es);
    Distribute(V, cfg.fees.perShareFee, cfg.fees.takerFee);
  }

  /**
   The exact safety condition for cash: with no negative fee, every log with prices within P and at
   most V charged units keeps all fees, cash balances and equities within 64 bits if and only if the
   fee of one fill of V does, and the highest and the lowest equity do.
   */
  lemma CashSafeIff(cfg: Config, P: nat, V: PosQty)
    requires FeesNotNegative(cfg.fees)
    ensures (forall log :: PricesWithin(log, P) && LogCharge(log) <= V ==> CashSafe(cfg, log))
            <==> WholeFee(cfg.fees, V) < INT64_LIMIT
                 && -INT64_LIMIT <= Lowest(cfg, P, V) && Highest(cfg, P, V) < INT64_LIMIT
  {
    if WholeFee(cfg.fees, V) >= INT64_LIMIT {
      var es := WholeFeeReached(cfg, P, V);
      SingleUnsafe(cfg, es);
    } else if Lowest(cfg, P, V) < -INT64_LIMIT {
      var es := LowestReached(cfg, P, V);
      SingleUnsafe(cfg, es);
    } else if Highest(cfg, P, V) >= INT64_LIMIT {
      var es := HighestReached(cfg, P, V);
      SingleUnsafe(cfg, es);
    } else {
      forall log | PricesWithin(log, P) && LogCharge(log) <= V
        ensures CashSafe(cfg, log)
      {
        forall k | 0 <= k < |log|
          ensures AllFit(CashValues(cfg.fees, LedgerRun(cfg, log[..k]), log[k], LedgerRun(cfg, log[..k + 1])))
        {
          StepCashSafe(cfg, log, k, P, V);
        }
      }
    }
  }
}
