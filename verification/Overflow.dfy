/**
 When the ledger's 64-bit arithmetic is safe. Prices within P and a traded volume of at most V
 keep every intermediate value in range exactly when 2 * P * V < 2^63.
 */
module Overflow {
  import opened Arithmetic
  import opened Positions
  import opened EntryPrice
  import opened Ledgers

  const INT64_LIMIT := 0x8000_0000_0000_0000

  predicate InInt64(x: int) {
    -INT64_LIMIT <= x < INT64_LIMIT
  }

  ghost predicate AllFit(xs: set<int>) {
    forall x :: x in xs ==> InInt64(x)
  }

  /** Every value `update_m2m` computes on the way. */
  function MarkValues(p: Position, price: int): set<int> {
    {Abs(p.netQty), Sign(p.netQty) * (price - p.avgEntryPrice), (price - p.avgEntryPrice) * p.netQty}
  }

  /** Every value the position arithmetic of `on_execution` computes on the way. */
  function FillValues(p: Position, side: Side, qty: PosQty, price: int): set<int> {
    var q := ApplyFill(p, side, qty, price);
    (if Adds(p, side) then
       {p.avgEntryPrice * Abs(p.netQty), price * qty, EntryNotional(p, qty, price)}
     else
       {-p.netQty, ClosingQty(p, side, qty), Sign(p.netQty) * (price - p.avgEntryPrice),
        RealizedBy(p, side, qty, price)})
    + {qty, q.netQty, q.avgEntryPrice, q.realizedPnl, q.totalTraded} + MarkValues(q, price)
  }

  function StepValues(p: Position, e: PositionEvent): set<int> {
    match e
    case Fill(side, qty, price) => FillValues(p, side, qty, price)
    case EmptyFill(price) => {p.avgEntryPrice * Abs(p.netQty), -p.netQty} + MarkValues(p, price)
    case Mark(price) => MarkValues(p, price)
  }

  /** What bounded prices make of a reachable position. */
  ghost predicate Bounded(p: Position, P: nat) {
    && Abs(p.avgEntryPrice) <= P
    && Abs(p.netQty) <= p.totalTraded
    && Abs(p.realizedPnl) <= P * (p.totalTraded - Abs(p.netQty))
    && Abs(p.unrealizedPnl) <= 2 * P * Abs(p.netQty)
  }

  lemma AverageStaysBounded(p: Position, side: Side, qty: PosQty, price: int, P: nat)
    requires Bounded(p, P) && Abs(price) <= P
    ensures Abs(NextAverage(p, side, qty, price)) <= P
  {
    if Adds(p, side) {
      AverageBetween(p.avgEntryPrice, Abs(p.netQty), price, qty, 0 - P as int, P);
    }
  }

  /** A closing fill risks twice P a unit, and takes two units of volume off the open exposure. */
  lemma RealizedStaysBounded(p: Position, side: Side, qty: PosQty, price: int, P: nat)
    requires Bounded(p, P) && Abs(price) <= P
    ensures Abs(RealizedBy(p, side, qty, price)) <= 2 * P * ClosingQty(p, side, qty)
    ensures Abs(p.realizedPnl + RealizedBy(p, side, qty, price))
            <= P * (p.totalTraded + qty - Abs(p.netQty + Signed(side, qty)))
  {
    var c := ClosingQty(p, side, qty);
    var open := p.totalTraded - Abs(p.netQty);
    UnitBound(Sign(p.netQty), price, p.avgEntryPrice, P);
    MulBound(Sign(p.netQty) * (price - p.avgEntryPrice), c, 2 * P, c);
    assert p.totalTraded + qty - Abs(p.netQty + Signed(side, qty)) == open + 2 * c;
    OpenVolume(P, open, c);
  }

  lemma UnitBound(sign: int, price: int, avg: int, P: nat)
    requires -1 <= sign <= 1 && Abs(price) <= P && Abs(avg) <= P
    ensures Abs(sign * (price - avg)) <= 2 * P
  {
    MulBound(sign, price - avg, 1, 2 * P);
  }

  lemma OpenVolume(P: nat, open: nat, c: nat)
    ensures P * (open + 2 * c) == P * open + 2 * P * c
  {
  }

  lemma MarkStaysBounded(p: Position, price: int, P: nat)
    requires Abs(p.avgEntryPrice) <= P && Abs(price) <= P
    ensures Abs((price - p.avgEntryPrice) * p.netQty) <= 2 * P * Abs(p.netQty)
  {
    MulBound(price - p.avgEntryPrice, p.netQty, 2 * P, Abs(p.netQty));
  }

  lemma StepStaysBounded(p: Position, e: PositionEvent, P: nat)
    requires Bounded(p, P) && Abs(e.price) <= P
    ensures Bounded(Step(p, e), P)
  {
    match e
    case Mark(price) =>
      MarkStaysBounded(p, price, P);
    case EmptyFill(price) =>
      MarkStaysBounded(p, price, P);
    case Fill(side, qty, price) =>
      AverageStaysBounded(p, side, qty, price, P);
      RealizedStaysBounded(p, side, qty, price, P);
      MarkStaysBounded(
        p.(netQty := p.netQty + Signed(side, qty), avgEntryPrice := NextAverage(p, side, qty, price)), price, P);
  }

  lemma ScaledVolume(P: nat, v: nat, V: nat)
    requires 1 <= P && v <= V && 2 * P * V < INT64_LIMIT
    ensures v <= 2 * P * v <= 2 * P * V
    ensures P * v <= 2 * P * v < INT64_LIMIT
    ensures v > 0 ==> 2 * P < INT64_LIMIT
  {
    MulMono(2 * P, 2 * P, v, V);
    MulMono(1, 2 * P, v, v);
    if v > 0 {
      MulMono(2 * P, 2 * P, 1, v);
    }
  }

  lemma MarkFits(p: Position, price: int, P: nat, V: nat)
    requires 1 <= P && 2 * P * V < INT64_LIMIT
    requires Abs(p.avgEntryPrice) <= P && Abs(price) <= P && Abs(p.netQty) <= V
    ensures AllFit(MarkValues(p, price))
  {
    ScaledVolume(P, Abs(p.netQty), V);
    MarkStaysBounded(p, price, P);
  }

  lemma AddFits(p: Position, qty: PosQty, price: int, P: nat, V: nat)
    requires 1 <= P && 2 * P * V < INT64_LIMIT
    requires Abs(p.avgEntryPrice) <= P && Abs(price) <= P && Abs(p.netQty) + qty <= V
    ensures AllFit({p.avgEntryPrice * Abs(p.netQty), price * qty, EntryNotional(p, qty, price)})
  {
    var held := Abs(p.netQty);
    MulBound(p.avgEntryPrice, held, P, held);
    MulBound(price, qty, P, qty);
    Distribute(P, held, qty);
    ScaledVolume(P, held, V);
    ScaledVolume(P, qty, V);
    ScaledVolume(P, held + qty, V);
  }

  lemma CloseFits(p: Position, side: Side, qty: PosQty, price: int, P: nat, V: nat)
    requires 1 <= P && 2 * P * V < INT64_LIMIT
    requires Bounded(p, P) && Abs(price) <= P && p.totalTraded + qty <= V
    ensures AllFit({-p.netQty, ClosingQty(p, side, qty), Sign(p.netQty) * (price - p.avgEntryPrice),
                    RealizedBy(p, side, qty, price)})
  {
    RealizedStaysBounded(p, side, qty, price, P);
    ScaledVolume(P, ClosingQty(p, side, qty), V);
    ScaledVolume(P, Abs(p.netQty), V);
  }

  lemma ResultFits(q: Position, P: nat, V: nat)
    requires 1 <= P && 2 * P * V < INT64_LIMIT
    requires Bounded(q, P) && 0 < q.totalTraded <= V
    ensures AllFit({q.netQty, q.avgEntryPrice, q.realizedPnl, q.totalTraded})
  {
    ScaledVolume(P, q.totalTraded, V);
    ScaledVolume(P, Abs(q.netQty), V);
    ScaledVolume(P, q.totalTraded - Abs(q.netQty), V);
  }

  lemma BoundedStepFits(p: Position, e: PositionEvent, P: nat, V: nat)
    requires 1 <= P && 2 * P * V < INT64_LIMIT
    requires Bounded(p, P) && Abs(e.price) <= P && Step(p, e).totalTraded <= V
    ensures AllFit(StepValues(p, e))
  {
    match e
    case Mark(price) =>
      MarkFits(p, price, P, V);
    case EmptyFill(price) =>
      MarkFits(p, price, P, V);
      MulBound(p.avgEntryPrice, Abs(p.netQty), P, Abs(p.netQty));
      ScaledVolume(P, Abs(p.netQty), V);
    case Fill(side, qty, price) =>
      var q := Step(p, e);
      StepStaysBounded(p, e, P);
      MarkFits(q, price, P, V);
      ResultFits(q, P, V);
      if Adds(p, side) {
        AddFits(p, qty, price, P, V);
      } else {
        CloseFits(p, side, qty, price, P, V);
      }
  }

  // The whole ledger.

  function TradedBy(p: Position): int { p.totalTraded }

  ghost predicate PricesWithin(log: seq<LedgerEvent>, P: nat) {
    forall i :: 0 <= i < |log| ==> Abs(log[i].event.price) <= P
  }

  lemma {:induction false} LedgerBounded(cfg: Config, log: seq<LedgerEvent>, P: nat)
    requires PricesWithin(log, P)
    ensures var ps := LedgerRun(cfg, log).positions;
            && (forall s: SymbolId :: Bounded(ps[s], P))
            && SumOf(TradedBy, ps) == LogVolume(log)
  {
    if log == [] {
      SumOfZero(TradedBy, OpeningPositions());
    } else {
      var init, e := log[..|log| - 1], log[|log| - 1];
      LedgerBounded(cfg, init, P);
      var ps := LedgerRun(cfg, init).positions;
      hide Step, Bounded;
      StepFacts(ps[e.symbol], e.event);
      StepStaysBounded(ps[e.symbol], e.event, P);
      SumOfUpdate(TradedBy, ps, e.symbol, Step(ps[e.symbol], e.event));
    }
  }

  lemma {:induction false} PartOfSum<T>(f: T -> int, xs: seq<T>, i: nat)
    requires forall j :: 0 <= j < |xs| ==> f(xs[j]) >= 0
    ensures i < |xs| ==> f(xs[i]) <= SumOf(f, xs)
    ensures i <= |xs| ==> 0 <= SumOf(f, xs[..i]) <= SumOf(f, xs)
  {
    if i == |xs| {
      assert xs[..i] == xs;
    }
    if xs != [] {
      var last := |xs| - 1;
      PartOfSum(f, xs[..last], if i < last then i else last);
      assert i < last ==> xs[..last][..i] == xs[..i];
      assert xs[..last][..last] == xs[..last];
    }
  }

  /** Everything computed while posting `e`, and by `total_pnl` on the resulting ledger. */
  ghost predicate PostFits(cfg: Config, l: Ledger, e: LedgerEvent)
    requires |l.positions| == MAX_SYMBOLS
  {
    && AllFit(StepValues(l.positions[e.symbol], e.event))
    && PnlFits(Post(cfg, l, e).positions)
  }

  ghost predicate PnlFits(ps: seq<Position>) {
    && (forall i :: 0 <= i < |ps| ==> InInt64(PositionPnl(ps[i])))
    && (forall k :: 0 <= k <= |ps| ==> InInt64(SumOf(CountedPnl, ps[..k])))
  }

  ghost predicate LogFits(cfg: Config, log: seq<LedgerEvent>) {
    forall k :: 0 <= k < |log| ==> PostFits(cfg, LedgerRun(cfg, log[..k]), log[k])
  }

  lemma PositionPnlBound(p: Position, P: nat)
    requires Bounded(p, P)
    ensures Abs(PositionPnl(p)) <= 2 * P * p.totalTraded
    ensures Abs(CountedPnl(p)) <= 2 * P * p.totalTraded
    ensures Abs(Realized(p)) <= P * p.totalTraded
  {
    SplitVolume(P, p.totalTraded - Abs(p.netQty), Abs(p.netQty));
  }

  lemma SplitVolume(P: nat, open: nat, net: nat)
    ensures P * (open + net) == P * open + P * net
    ensures 2 * P * (open + net) == 2 * (P * open) + 2 * (P * net)
    ensures 2 * P * net == 2 * (P * net)
    ensures P * open >= 0 && P * net >= 0
  {
  }

  lemma BoundedPnlFits(ps: seq<Position>, P: nat, V: nat)
    requires 1 <= P && 2 * P * V < INT64_LIMIT && SumOf(TradedBy, ps) <= V
    requires forall i :: 0 <= i < |ps| ==> Bounded(ps[i], P)
    ensures PnlFits(ps)
  {
    forall i | 0 <= i < |ps|
      ensures TradedBy(ps[i]) >= 0 && Abs(CountedPnl(ps[i])) <= (2 * P) * TradedBy(ps[i])
      ensures InInt64(PositionPnl(ps[i]))
    {
      PositionPnlBound(ps[i], P);
      PartOfSum(TradedBy, ps, i);
      ScaledVolume(P, ps[i].totalTraded, V);
    }
    forall k | 0 <= k <= |ps|
      ensures InInt64(SumOf(CountedPnl, ps[..k]))
    {
      SumOfBound(CountedPnl, TradedBy, 2 * P, ps[..k]);
      PartOfSum(TradedBy, ps, k);
      ScaledVolume(P, SumOf(TradedBy, ps[..k]), V);
    }
  }

  lemma SafeWhenBounded(cfg: Config, log: seq<LedgerEvent>, P: nat, V: nat)
    requires 1 <= P && 2 * P * V < INT64_LIMIT
    requires PricesWithin(log, P) && LogVolume(log) <= V
    ensures LogFits(cfg, log)
  {
    forall k | 0 <= k < |log|
      ensures PostFits(cfg, LedgerRun(cfg, log[..k]), log[k])
    {
      StepSafe(cfg, log, k, P, V);
    }
  }

  lemma StepSafe(cfg: Config, log: seq<LedgerEvent>, k: nat, P: nat, V: nat)
    requires k < |log|
    requires 1 <= P && 2 * P * V < INT64_LIMIT
    requires PricesWithin(log, P) && LogVolume(log) <= V
    ensures PostFits(cfg, LedgerRun(cfg, log[..k]), log[k])
  {
    hide LedgerRun, Step, StepValues, Bounded, PnlFits, AllFit, SumOf;
    var now, e := LedgerRun(cfg, log[..k]), log[k];
    assert log[..k + 1] == log[..k] + [e];
    var next := LedgerRun(cfg, log[..k + 1]);
    LedgerRunSnoc(cfg, log[..k], e);
    PartOfSum(QtyOf, log, k + 1);
    LedgerBounded(cfg, log[..k], P);
    LedgerBounded(cfg, log[..k + 1], P);
    forall i | 0 <= i < |next.positions|
      ensures Bounded(next.positions[i], P)
    {
      var s: SymbolId := i;
      assert Bounded(next.positions[s], P);
    }
    PartOfSum(TradedBy, next.positions, e.symbol);
    BoundedStepFits(now.positions[e.symbol], e.event, P, V);
    BoundedPnlFits(next.positions, P, V);
  }

  /** Buy V at -P, then mark at P. */
  function WorstLog(P: nat, V: PosQty): seq<LedgerEvent> {
    [LedgerEvent(0, Fill(Buy, V, -(P as int))), LedgerEvent(0, Mark(P))]
  }

  lemma WorstLogBounds(P: nat, V: PosQty)
    ensures PricesWithin(WorstLog(P, V), P) && LogVolume(WorstLog(P, V)) == V
  {
    var log := WorstLog(P, V);
    assert log == [] + [log[0]] + [log[1]];
    SumOfSnoc(QtyOf, [], log[0]);
    SumOfSnoc(QtyOf, [] + [log[0]], log[1]);
  }

  lemma WorstLogOverflows(cfg: Config, P: nat, V: PosQty)
    requires 2 * P * V >= INT64_LIMIT
    ensures !LogFits(cfg, WorstLog(P, V))
  {
    var log := WorstLog(P, V);
    assert log[..1] == [] + [log[0]] && log[..|log| - 1] == log[..1] && log[..1][..0] == [];
    LedgerRunSnoc(cfg, [], log[0]);
    var before := LedgerRun(cfg, log[..1]);
    WorstMark(P, V);
    assert before.positions[0] == ApplyFill(Flat(0), Buy, V, -(P as int));
    assert !PostFits(cfg, before, log[1]);
  }

  lemma WorstMark(P: nat, V: PosQty)
    requires 2 * P * V >= INT64_LIMIT
    ensures !AllFit(StepValues(ApplyFill(Flat(0), Buy, V, -(P as int)), Mark(P)))
  {
    var p := ApplyFill(Flat(0), Buy, V, -(P as int));
    TruncDivExact(-(P as int), V);
    assert p.netQty == V && p.avgEntryPrice == -(P as int);
    assert (P - p.avgEntryPrice) * p.netQty == 2 * P * V;
    assert 2 * P * V in StepValues(p, Mark(P));
  }

  /**
   The exact safety condition: every log with prices within P and volume at most V keeps all of
   the ledger's position and P&L arithmetic within 64 bits if and only if 2 * P * V < 2^63.
   */
  lemma SafeIff(cfg: Config, P: nat, V: PosQty)
    requires 1 <= P
    ensures (forall log :: PricesWithin(log, P) && LogVolume(log) <= V ==> LogFits(cfg, log))
            <==> 2 * P * V < INT64_LIMIT
  {
    if 2 * P * V < INT64_LIMIT {
      forall log | PricesWithin(log, P) && LogVolume(log) <= V
        ensures LogFits(cfg, log)
      {
        SafeWhenBounded(cfg, log, P, V);
      }
    } else {
      WorstLogBounds(P, V);
      WorstLogOverflows(cfg, P, V);
    }
  }

  // The position a risk check expects.

  lemma ExpectedWithin(cfg: Config, log: seq<LedgerEvent>, symbol: SymbolId, V: nat)
    requires LogVolume(log) <= V
    ensures Abs(LedgerRun(cfg, log).positions[symbol].netQty) <= V
  {
    PositionsAreRuns(cfg, log, symbol);
    RunInvariant(symbol, History(log, symbol));
    VolumeOf(log, symbol);
  }

  lemma {:induction false} VolumeOf(log: seq<LedgerEvent>, symbol: SymbolId)
    ensures Abs(NetBought(History(log, symbol))) <= Volume(History(log, symbol)) <= LogVolume(log)
  {
    if log != [] {
      VolumeOf(log[..|log| - 1], symbol);
    }
  }

  lemma BoughtNet(cfg: Config, V: PosQty)
    ensures var log := [LedgerEvent(0, Fill(Buy, V, 0))];
            LogVolume(log) == V && LedgerRun(cfg, log).positions[0].netQty == V
  {
    hide Step, SumOf;
    var e := LedgerEvent(0, Fill(Buy, V, 0));
    assert [e] == [] + [e];
    SumOfSnoc(QtyOf, [], e);
    assert SumOf(QtyOf, []) == 0 by { SumOfZero(QtyOf, []); }
    LedgerRunSnoc(cfg, [], e);
    StepFacts(Flat(0), e.event);
  }

  /**
   The position that `check_pre_trade` expects, and its magnitude, fit 64 bits for every log of
   volume at most V and every order of size at most Q if and only if V + Q < 2^63.
   */
  lemma ExpectedFitsIff(cfg: Config, V: PosQty, Q: nat)
    ensures (forall log, symbol: SymbolId, side: Side, qty: nat :: LogVolume(log) <= V && qty <= Q ==>
               Abs(LedgerRun(cfg, log).positions[symbol].netQty + Signed(side, qty)) < INT64_LIMIT)
            <==> V + Q < INT64_LIMIT
  {
    hide LedgerRun, SumOf;
    if V + Q < INT64_LIMIT {
      forall log, symbol: SymbolId, side: Side, qty: nat | LogVolume(log) <= V && qty <= Q
        ensures Abs(LedgerRun(cfg, log).positions[symbol].netQty + Signed(side, qty)) < INT64_LIMIT
      {
        ExpectedWithin(cfg, log, symbol, V);
      }
    } else {
      var e := LedgerEvent(0, Fill(Buy, V, 0));
      BoughtNet(cfg, V);
      assert LedgerRun(cfg, [e]).positions[0].netQty + Signed(Buy, Q) == V + Q;
    }
  }
}
