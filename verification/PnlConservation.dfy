/**
 Conservation of profit and loss. The ledger's realised and unrealised P&L, computed
 from a truncated average price, equals the money that actually changed hands plus the
 value of what is held, up to exactly the division remainders of the adding fills.
 */
module PnlConservation {
  import opened Arithmetic
  import opened Positions

  /** Sell notional minus buy notional: no average price, no branches. */
  function NetProceeds(es: seq<PositionEvent>): int {
    SumOf(Proceeds, es)
  }

  function Proceeds(e: PositionEvent): int {
    if e.Fill? then -(Signed(e.side, e.qty) * e.price) else 0
  }

  /** The remainder an event's average-price division drops: plus for a long, minus for a short. */
  function Dropped(p: Position, e: PositionEvent): int {
    if e.Fill? && Adds(p, e.side)
    then Signed(e.side, 1) * TruncRem(EntryNotional(p, e.qty, e.price), Abs(p.netQty) + e.qty)
    else 0
  }

  function DroppedSum(symbol: nat, es: seq<PositionEvent>): int {
    if es == [] then 0
    else
      var init := es[..|es| - 1];
      DroppedSum(symbol, init) + Dropped(Run(symbol, init), es[|es| - 1])
  }

  /** The sum of |net after| - 1 over the adding fills. */
  function ErrorBudget(symbol: nat, es: seq<PositionEvent>): int {
    if es == [] then 0
    else
      var init, e := es[..|es| - 1], es[|es| - 1];
      ErrorBudget(symbol, init) +
      if e.Fill? && Adds(Run(symbol, init), e.side) then Abs(Run(symbol, es).netQty) - 1 else 0
  }

  /** The quantity every event conserves: realised P&L minus the book cost of the position. */
  function BookValue(p: Position): int {
    p.realizedPnl - p.netQty * p.avgEntryPrice
  }

  lemma AddConserves(p: Position, side: Side, qty: PosQty, price: int)
    requires Adds(p, side)
    ensures BookValue(ApplyFill(p, side, qty, price)) ==
            BookValue(p) + Proceeds(Fill(side, qty, price)) + Dropped(p, Fill(side, qty, price))
  {
    var total, d := EntryNotional(p, qty, price), Abs(p.netQty) + qty;
    AddAlgebra(p.avgEntryPrice, Abs(p.netQty), price, qty, TruncDiv(total, d), Signed(side, 1));
  }

  lemma AddAlgebra(a: int, held: int, price: int, qty: int, q: int, sign: int)
    requires sign == 1 || sign == -1
    ensures -(sign * (held + qty) * q) ==
            -(sign * held * a) - sign * qty * price + sign * (a * held + price * qty - q * (held + qty))
  {
  }

  lemma ReduceConserves(p: Position, side: Side, qty: PosQty, price: int)
    requires !Adds(p, side)
    ensures BookValue(ApplyFill(p, side, qty, price)) ==
            BookValue(p) + Proceeds(Fill(side, qty, price))
  {
    var q := ApplyFill(p, side, qty, price);
    var s, a := Signed(side, qty), p.avgEntryPrice;
    var net := p.netQty;
    if qty <= Abs(net) {
      assert Sign(net) * ClosingQty(p, side, qty) == -s;
      assert RealizedBy(p, side, qty, price) == (price - a) * -s by {
        Rotate(Sign(net), price - a, ClosingQty(p, side, qty));
      }
      assert q.netQty * q.avgEntryPrice == (net + s) * a;
    } else {
      assert Sign(net) * ClosingQty(p, side, qty) == net;
      assert RealizedBy(p, side, qty, price) == (price - a) * net by {
        Rotate(Sign(net), price - a, ClosingQty(p, side, qty));
      }
      assert q.netQty * q.avgEntryPrice == (net + s) * price;
    }
  }

  lemma Rotate(x: int, y: int, z: int)
    ensures x * y * z == y * (x * z)
  {
  }

  /** Only an adding fill drops anything: reductions, closes, flips and marks are exact. */
  lemma StepConserves(p: Position, e: PositionEvent)
    ensures BookValue(Step(p, e)) == BookValue(p) + Proceeds(e) + Dropped(p, e)
  {
    match e
    case Mark(_) =>
    case EmptyFill(_) =>
    case Fill(side, qty, price) =>
      if Adds(p, side) {
        AddConserves(p, side, qty, price);
      } else {
        ReduceConserves(p, side, qty, price);
      }
  }

  lemma {:induction false} BookValueConserved(symbol: nat, es: seq<PositionEvent>)
    ensures BookValue(Run(symbol, es)) == NetProceeds(es) + DroppedSum(symbol, es)
  {
    if es != [] {
      var init := es[..|es| - 1];
      BookValueConserved(symbol, init);
      StepConserves(Run(symbol, init), es[|es| - 1]);
    }
  }

  /** The conservation law, for every history of fills and marks of one symbol. */
  lemma PnlConserved(symbol: nat, es: seq<PositionEvent>)
    ensures var p := Run(symbol, es);
            p.realizedPnl + p.unrealizedPnl ==
            NetProceeds(es) + p.netQty * p.lastPrice + DroppedSum(symbol, es)
  {
    hide Run;
    BookValueConserved(symbol, es);
    RunInvariant(symbol, es);
    MarkedValue(Run(symbol, es));
  }

  lemma MarkedValue(p: Position)
    requires p.unrealizedPnl == (p.lastPrice - p.avgEntryPrice) * p.netQty
    ensures p.realizedPnl + p.unrealizedPnl == BookValue(p) + p.netQty * p.lastPrice
  {
  }

  lemma DroppedBound(p: Position, side: Side, qty: PosQty, price: int)
    requires Adds(p, side)
    ensures Abs(Dropped(p, Fill(side, qty, price))) <= Abs(p.netQty + Signed(side, qty)) - 1
  {
    TruncRemBound(EntryNotional(p, qty, price), Abs(p.netQty) + qty);
  }

  lemma {:induction false} DroppedWithinBudget(symbol: nat, es: seq<PositionEvent>)
    ensures Abs(DroppedSum(symbol, es)) <= ErrorBudget(symbol, es)
  {
    if es != [] {
      var init, e := es[..|es| - 1], es[|es| - 1];
      var p := Run(symbol, init);
      DroppedWithinBudget(symbol, init);
      if e.Fill? && Adds(p, e.side) {
        DroppedBound(p, e.side, e.qty, e.price);
      }
    }
  }

  /** How wrong the reported P&L can be, and what a closed-out position has realised. */
  lemma PnlErrorBound(symbol: nat, es: seq<PositionEvent>)
    ensures var p := Run(symbol, es);
            && Abs(p.realizedPnl + p.unrealizedPnl - (NetProceeds(es) + p.netQty * p.lastPrice))
               <= ErrorBudget(symbol, es)
            && (p.netQty == 0 ==> p.realizedPnl == NetProceeds(es) + DroppedSum(symbol, es))
  {
    hide Run;
    PnlConserved(symbol, es);
    DroppedWithinBudget(symbol, es);
    RunInvariant(symbol, es);
  }

  /** Single units bought at 0, 1, 2, ...: each division drops as much as it can. */
  function Ladder(n: nat): seq<PositionEvent> {
    if n == 0 then [] else Ladder(n - 1) + [Fill(Buy, 1, n - 1)]
  }

  lemma LadderRung(p: Position, k: nat)
    requires p.netQty == k && p.avgEntryPrice == 0
    ensures var q := ApplyFill(p, Buy, 1, k);
            q.netQty == k + 1 && q.avgEntryPrice == 0 && Dropped(p, Fill(Buy, 1, k)) == k
  {
    assert EntryNotional(p, 1, k) == k;
    assert TruncDiv(k, k + 1) == 0;
  }

  lemma {:induction false} LadderRun(symbol: nat, n: nat)
    ensures var p := Run(symbol, Ladder(n));
            && p.netQty == n && p.avgEntryPrice == 0
            && DroppedSum(symbol, Ladder(n)) == ErrorBudget(symbol, Ladder(n))
            && 2 * ErrorBudget(symbol, Ladder(n)) == n * (n - 1)
  {
    hide ApplyFill, Dropped;
    if n > 0 {
      LadderRun(symbol, n - 1);
      var es, e := Ladder(n - 1), Fill(Buy, 1, n - 1);
      assert Ladder(n)[..|es|] == es;
      LadderRung(Run(symbol, es), n - 1);
    }
  }

  /** The error bound is reached, for every number of fills: the ladder reports the whole budget. */
  lemma ErrorBudgetReached(symbol: nat, n: nat)
    ensures var es := Ladder(n);
            var p := Run(symbol, es);
            && p.realizedPnl + p.unrealizedPnl - (NetProceeds(es) + p.netQty * p.lastPrice) == ErrorBudget(symbol, es)
            && 2 * ErrorBudget(symbol, es) == n * (n - 1)
  {
    hide Run;
    PnlConserved(symbol, Ladder(n));
    LadderRun(symbol, n);
  }
}
