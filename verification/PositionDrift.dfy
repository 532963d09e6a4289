/**
 How far a position can drift past its limit. The check looks at the position and one order,
 not at orders already resting, so several approved orders may fill together.

 Orders go through the check, rest, fill in pieces or are cancelled; fills post to the ledger.
 */
module PositionDrift {
  import opened Options
  import opened Arithmetic
  import opened Positions
  import opened Ledgers
  import opened RiskGate

  datatype OpenOrder = OpenOrder(symbol: SymbolId, side: Side, leaves: nat)

  datatype Env = Env(cfg: Config, limits: RiskLimits)

  datatype Desk = Desk(book: Book, killed: bool, open: seq<OpenOrder>)

  datatype DeskStep =
    | Submit(req: OrderRequest)
    | Execute(order: nat, qty: PosQty, price: int)
    | Cancel(order: nat)
    | MarkPrice(symbol: SymbolId, price: int)
    | TripKillSwitch

  function Opening(cfg: Config): Desk {
    Desk(LedgerRun(cfg, []), false, [])
  }

  predicate Enabled(d: Desk, step: DeskStep) {
    match step
    case Execute(order, qty, _) => order < |d.open| && qty <= d.open[order].leaves
    case Cancel(order) => order < |d.open|
    case _ => true
  }

  function Without(orders: seq<OpenOrder>, i: nat): seq<OpenOrder>
    requires i < |orders|
  {
    orders[..i] + orders[i + 1..]
  }

  function Next(env: Env, d: Desk, step: DeskStep): Desk
    requires Enabled(d, step)
  {
    match step
    case Submit(req) =>
      var v := Decide(env.limits, d.killed, Some(d.book), req);
      d.(killed := d.killed || v == MaxLoss,
         open := if v == Approved then d.open + [OpenOrder(req.symbol, req.side, req.qty)] else d.open)
    case Execute(i, qty, price) =>
      var o := d.open[i];
      d.(book := Post(env.cfg, d.book, LedgerEvent(o.symbol, Fill(o.side, qty, price))),
         open := if o.leaves == qty then Without(d.open, i) else d.open[i := o.(leaves := o.leaves - qty)])
    case Cancel(i) => d.(open := Without(d.open, i))
    case MarkPrice(s, price) => d.(book := Post(env.cfg, d.book, LedgerEvent(s, Mark(price))))
    case TripKillSwitch => d.(killed := true)
  }

  function LeavesOn(s: SymbolId, side: Side): OpenOrder -> int {
    (o: OpenOrder) => if o.symbol == s && o.side == side then o.leaves else 0
  }

  function CountOn(s: SymbolId, side: Side): OpenOrder -> int {
    (o: OpenOrder) => if o.symbol == s && o.side == side then 1 else 0
  }

  function Net(d: Desk, s: SymbolId): int {
    d.book.positions[s].netQty
  }

  /** The position on one side if everything resting there were to fill. */
  function Exposure(d: Desk, s: SymbolId, side: Side): int {
    Signed(side, Net(d, s)) + SumOf(LeavesOn(s, side), d.open)
  }

  ghost predicate AtMost(d: Desk, K: nat) {
    forall s: SymbolId, side: Side :: SumOf(CountOn(s, side), d.open) <= K
  }

  /** `steps` lead from `d` to `e`, never with more than K orders resting per symbol and side. */
  ghost predicate Reaches(env: Env, K: nat, d: Desk, steps: seq<DeskStep>, e: Desk)
    decreases |steps|
  {
    if steps == [] then d == e
    else
      && Enabled(d, steps[0])
      && AtMost(Next(env, d, steps[0]), K)
      && Reaches(env, K, Next(env, d, steps[0]), steps[1..], e)
  }

  function DriftLimit(limits: RiskLimits, K: int): int {
    limits.maxPositionPerSymbol + (K - 1) * limits.maxOrderSize
  }

  /** What every run keeps. */
  ghost predicate Contained(env: Env, K: nat, d: Desk) {
    && (forall s: SymbolId, side: Side :: Exposure(d, s, side) <= DriftLimit(env.limits, K))
    && (env.limits.maxOrderSize > 0 ==>
          forall i :: 0 <= i < |d.open| ==> d.open[i].leaves <= env.limits.maxOrderSize)
  }

  lemma {:induction false} LeavesBound(open: seq<OpenOrder>, s: SymbolId, side: Side, M: nat)
    requires M > 0 ==> forall i :: 0 <= i < |open| ==> open[i].leaves <= M
    ensures var leaves, count := SumOf(LeavesOn(s, side), open), SumOf(CountOn(s, side), open);
            && leaves >= 0 && count >= 0
            && (M > 0 ==> leaves <= count * M)
            && (count == 0 ==> leaves == 0)
  {
    if open != [] {
      var last := open[|open| - 1];
      LeavesBound(open[..|open| - 1], s, side, M);
      var count := SumOf(CountOn(s, side), open[..|open| - 1]);
      assert (count + 1) * M == count * M + M;
    }
  }

  lemma PostedNet(env: Env, d: Desk, e: LedgerEvent, s: SymbolId)
    ensures Post(env.cfg, d.book, e).positions[s].netQty ==
            Net(d, s) + if e.symbol == s && e.event.Fill? then Signed(e.event.side, e.event.qty) else 0
  {
  }

  /** A fill moves quantity from resting to held on its own side, and off the other side. */
  lemma ExecuteExposure(env: Env, d: Desk, i: nat, qty: PosQty, price: int, s: SymbolId, side: Side)
    requires Enabled(d, Execute(i, qty, price))
    ensures Exposure(Next(env, d, Execute(i, qty, price)), s, side) ==
            Exposure(d, s, side) - if s == d.open[i].symbol && side != d.open[i].side then qty else 0
  {
    hide Post, SumOf;
    var o, f := d.open[i], LeavesOn(s, side);
    PostedNet(env, d, LedgerEvent(o.symbol, Fill(o.side, qty, price)), s);
    if o.leaves == qty {
      SumOfRemove(f, d.open, i);
    } else {
      SumOfUpdate(f, d.open, i, o.(leaves := o.leaves - qty));
    }
  }

  /**
   What one step does to the exposure on any side of any symbol. Only an approval raises it; a fill
   leaves it alone on its own side and takes it off the other, a cancel gives back what was resting.
   */
  lemma ExposureStep(env: Env, d: Desk, step: DeskStep, s: SymbolId, side: Side)
    requires Enabled(d, step)
    ensures var e := Next(env, d, step);
            Exposure(e, s, side) - Exposure(d, s, side) ==
            match step
            case Submit(req) => if e.open != d.open && req.symbol == s && req.side == side then req.qty else 0
            case Execute(i, qty, _) => if d.open[i].symbol == s && d.open[i].side != side then -(qty as int) else 0
            case Cancel(i) => if d.open[i].symbol == s && d.open[i].side == side then -(d.open[i].leaves as int) else 0
            case _ => 0
  {
    hide SumOf, Post;
    match step
    case Submit(req) =>
      SumOfSnoc(LeavesOn(s, side), d.open, OpenOrder(req.symbol, req.side, req.qty));
    case Execute(i, qty, price) =>
      ExecuteExposure(env, d, i, qty, price, s, side);
    case Cancel(i) =>
      SumOfRemove(LeavesOn(s, side), d.open, i);
    case MarkPrice(t, price) =>
      PostedNet(env, d, LedgerEvent(t, Mark(price)), s);
    case TripKillSwitch =>
  }

  /** What a step trips, and the one book entry it prices. */
  lemma StepTrips(env: Env, d: Desk, step: DeskStep)
    requires Enabled(d, step)
    ensures var e, limits := Next(env, d, step), env.limits;
            && (e.killed <==>
                  || d.killed || step.TripKillSwitch?
                  || (step.Submit? && !(0 < limits.maxOrderSize < step.req.qty)
                      && 0 < limits.maxLoss && TotalPnl(d.book) < -limits.maxLoss))
            && (!step.Execute? && !step.MarkPrice? ==> e.book == d.book)
            && (step.MarkPrice? ==> e.book.positions[step.symbol].lastPrice == step.price)
            && (step.Execute? ==> e.book.positions[d.open[step.order].symbol].lastPrice == step.price)
  {
    hide Step, SumOf, TotalPnl;
    if step.MarkPrice? {
      StepFacts(d.book.positions[step.symbol], Mark(step.price));
    } else if step.Execute? {
      var o := d.open[step.order];
      StepFacts(d.book.positions[o.symbol], Fill(o.side, step.qty, step.price));
    }
  }

  /** Which orders rest after a step: it changes the one it names and no other. */
  lemma StepIsLocal(env: Env, d: Desk, step: DeskStep)
    requires Enabled(d, step)
    ensures step.MarkPrice? || step.TripKillSwitch? ==> Next(env, d, step).open == d.open
    ensures step.Submit? ==>
              var e, verdict := Next(env, d, step), Decide(env.limits, d.killed, Some(d.book), step.req);
              && (verdict == Approved ==>
                    e.open == d.open + [OpenOrder(step.req.symbol, step.req.side, step.req.qty)])
              && (verdict != Approved ==> e.open == d.open)
    ensures step.Cancel? ==> Removed(d, Next(env, d, step), step.order)
    ensures step.Execute? ==>
              var e, i, o := Next(env, d, step), step.order, d.open[step.order];
              if step.qty == o.leaves then Removed(d, e, i)
              else
                && |e.open| == |d.open|
                && e.open[i].symbol == o.symbol && e.open[i].side == o.side
                && e.open[i].leaves + step.qty == o.leaves
                && forall j :: 0 <= j < |d.open| && j != i ==> e.open[j] == d.open[j]
  {
    hide Post, Decide, Removed, Without;
    match step
    case Cancel(i) =>
      WithoutRemoves(d, Next(env, d, step), i);
    case Execute(i, qty, _) =>
      if qty == d.open[i].leaves {
        WithoutRemoves(d, Next(env, d, step), i);
      }
    case _ =>
  }

  lemma WithoutRemoves(d: Desk, e: Desk, i: nat)
    requires i < |d.open| && e.open == Without(d.open, i)
    ensures Removed(d, e, i)
  {
  }

  /** Order `i` is gone and the others are as they were. */
  ghost predicate Removed(d: Desk, e: Desk, i: nat)
    requires i < |d.open|
  {
    && |e.open| == |d.open| - 1
    && (forall j :: 0 <= j < i ==> e.open[j] == d.open[j])
    && (forall j :: i <= j < |e.open| ==> e.open[j] == d.open[j + 1])
  }

  lemma SubmitContained(env: Env, K: nat, d: Desk, req: OrderRequest)
    requires env.limits.maxPositionPerSymbol > 0
    requires env.limits.maxOrderSize > 0 || K == 1
    requires Contained(env, K, d) && AtMost(Next(env, d, Submit(req)), K)
    requires Decide(env.limits, d.killed, Some(d.book), req) == Approved
    ensures Exposure(d, req.symbol, req.side) + req.qty <= DriftLimit(env.limits, K)
  {
    hide SumOf, TotalPnl;
    var o, M := OpenOrder(req.symbol, req.side, req.qty), env.limits.maxOrderSize;
    var count := SumOf(CountOn(o.symbol, o.side), d.open);
    SumOfSnoc(CountOn(o.symbol, o.side), d.open, o);
    assert count + 1 <= K;
    LeavesBound(d.open, o.symbol, o.side, M);
    MulMono(count, K - 1, M, M);
  }

  lemma StepContained(env: Env, K: nat, d: Desk, step: DeskStep)
    requires env.limits.maxPositionPerSymbol > 0
    requires env.limits.maxOrderSize > 0 || K == 1
    requires Contained(env, K, d) && Enabled(d, step) && AtMost(Next(env, d, step), K)
    ensures Contained(env, K, Next(env, d, step))
  {
    hide Post, SumOf;
    var e := Next(env, d, step);
    forall s: SymbolId, side: Side
      ensures Exposure(e, s, side) <= DriftLimit(env.limits, K)
    {
      ExposureStep(env, d, step, s, side);
      if step.Submit? && e.open != d.open {
        SubmitContained(env, K, d, step.req);
      }
    }
  }

  lemma {:induction false} RunContained(env: Env, K: nat, d: Desk, steps: seq<DeskStep>, e: Desk)
    requires env.limits.maxPositionPerSymbol > 0
    requires env.limits.maxOrderSize > 0 || K == 1
    requires Contained(env, K, d) && Reaches(env, K, d, steps, e)
    ensures Contained(env, K, e)
    decreases |steps|
  {
    if steps != [] {
      StepContained(env, K, d, steps[0]);
      RunContained(env, K, Next(env, d, steps[0]), steps[1..], e);
    }
  }

  /** Do the limits bound a position at all? */
  predicate Bounded(limits: RiskLimits, K: nat) {
    limits.maxPositionPerSymbol > 0 && (limits.maxOrderSize > 0 || K == 1)
  }

  /**
   The drift bound, over every run of submissions, partial fills, cancels and marks: with position
   limit L and order limit M, at most K orders resting per symbol and side keep |net| within
   L + (K - 1) * M. One order at a time keeps it within L, with or without an order limit.
   */
  lemma DriftBound(env: Env, K: nat, steps: seq<DeskStep>, e: Desk, s: SymbolId)
    requires K >= 1 && Bounded(env.limits, K)
    requires Reaches(env, K, Opening(env.cfg), steps, e)
    ensures Abs(Net(e, s)) <= env.limits.maxPositionPerSymbol + (K - 1) * env.limits.maxOrderSize
  {
    var d := Opening(env.cfg);
    assert (K - 1) * env.limits.maxOrderSize >= 0;
    RunContained(env, K, d, steps, e);
    assert Exposure(e, s, Buy) <= DriftLimit(env.limits, K);
    assert Exposure(e, s, Sell) <= DriftLimit(env.limits, K);
    LeavesBound(e.open, s, Buy, env.limits.maxOrderSize);
    LeavesBound(e.open, s, Sell, env.limits.maxOrderSize);
  }

  /**
   The kill switch is final: from then on nothing is approved, so no side's exposure ever grows
   again and each position can only move within what was resting when it tripped.
   */
  lemma {:induction false} KilledOnlyDrains(env: Env, K: nat, d: Desk, steps: seq<DeskStep>, e: Desk)
    requires d.killed && Reaches(env, K, d, steps, e)
    ensures e.killed && |e.open| <= |d.open|
    ensures forall s: SymbolId, side: Side :: Exposure(e, s, side) <= Exposure(d, s, side)
    decreases |steps|
  {
    if steps != [] {
      var m := Next(env, d, steps[0]);
      KilledOnlyDrains(env, K, m, steps[1..], e);
      forall s: SymbolId, side: Side
        ensures Exposure(m, s, side) <= Exposure(d, s, side)
      {
        ExposureStep(env, d, steps[0], s, side);
      }
    }
  }

  // The bound is reached.

  lemma {:induction false} ReachesThen(env: Env, K: nat, d: Desk, a: seq<DeskStep>, m: Desk, b: seq<DeskStep>, e: Desk)
    requires Reaches(env, K, d, a, m) && Reaches(env, K, m, b, e)
    ensures Reaches(env, K, d, a + b, e)
    decreases |a|
  {
    if a == [] {
      assert a + b == b;
    } else {
      ReachesThen(env, K, Next(env, d, a[0]), a[1..], m, b, e);
      assert (a + b)[1..] == a[1..] + b;
    }
  }

  lemma ReachesOne(env: Env, K: nat, d: Desk, step: DeskStep)
    requires Enabled(d, step) && AtMost(Next(env, d, step), K)
    ensures Reaches(env, K, d, [step], Next(env, d, step))
  {
    assert [step][1..] == [];
  }

  function Resting(s: SymbolId, side: Side, M: nat, n: nat): seq<OpenOrder> {
    seq(n, _ => OpenOrder(s, side, M))
  }

  lemma {:induction false} RestingCount(s: SymbolId, side: Side, M: nat, n: nat, t: SymbolId, other: Side)
    ensures SumOf(CountOn(t, other), Resting(s, side, M, n)) <= n
  {
    if n > 0 {
      RestingCount(s, side, M, n - 1, t, other);
      assert Resting(s, side, M, n)[..n - 1] == Resting(s, side, M, n - 1);
    }
  }

  lemma RestingAtMost(d: Desk, s: SymbolId, side: Side, M: nat, n: nat, K: nat)
    requires d.open == Resting(s, side, M, n) && n <= K
    ensures AtMost(d, K)
  {
    forall t: SymbolId, other: Side
      ensures SumOf(CountOn(t, other), d.open) <= K
    {
      RestingCount(s, side, M, n, t, other);
    }
  }

  /** A book that has only ever traded at price zero: no entry prices, no profit, no loss. */
  ghost predicate Quiet(book: Book) {
    forall t: SymbolId :: QuietPosition(book.positions[t])
  }

  predicate QuietPosition(p: Position) {
    p.avgEntryPrice == 0 && p.realizedPnl == 0 && p.unrealizedPnl == 0
  }

  lemma QuietPnl(book: Book)
    requires Quiet(book)
    ensures TotalPnl(book) == 0
  {
    forall i | 0 <= i < |book.positions|
      ensures CountedPnl(book.positions[i]) == 0
    {
      var t: SymbolId := i;
      assert QuietPosition(book.positions[t]);
    }
    SumOfZero(CountedPnl, book.positions);
  }

  lemma FillAtZero(p: Position, side: Side, qty: PosQty)
    requires QuietPosition(p)
    ensures QuietPosition(ApplyFill(p, side, qty, 0))
  {
    assert EntryNotional(p, qty, 0) == 0;
  }

  lemma PostAtZero(cfg: Config, book: Book, s: SymbolId, side: Side, qty: PosQty)
    requires Quiet(book)
    ensures Quiet(Post(cfg, book, LedgerEvent(s, Fill(side, qty, 0))))
  {
    hide ApplyFill;
    assert QuietPosition(book.positions[s]);
    FillAtZero(book.positions[s], side, qty);
  }

  /** A live, quiet desk holding `net` of `s`, with `n` orders of size `M` resting on one side. */
  ghost predicate Holds(d: Desk, s: SymbolId, net: int, side: Side, M: nat, n: nat) {
    !d.killed && Quiet(d.book) && Net(d, s) == net && d.open == Resting(s, side, M, n)
  }

  /** Does the order limit let `q` through? */
  predicate SizeAllowed(env: Env, q: nat) {
    env.limits.maxOrderSize > 0 ==> q <= env.limits.maxOrderSize
  }

  /** Does the position limit let a position of `net` through? */
  predicate PositionAllowed(env: Env, net: int) {
    env.limits.maxPositionPerSymbol > 0 ==> Abs(net) <= env.limits.maxPositionPerSymbol
  }

  /** One more order of size M, approved and resting. */
  lemma SubmitOne(env: Env, K: nat, d: Desk, s: SymbolId, net: int, side: Side, M: nat, n: nat)
    returns (e: Desk)
    requires SizeAllowed(env, M) && n < K
    requires Holds(d, s, net, side, M, n)
    requires PositionAllowed(env, net + Signed(side, M))
    ensures Reaches(env, K, d, [Submit(OrderRequest(s, side, M))], e)
    ensures Holds(e, s, net, side, M, n + 1)
  {
    var step := Submit(OrderRequest(s, side, M));
    e := Next(env, d, step);
    QuietPnl(d.book);
    assert Decide(env.limits, d.killed, Some(d.book), step.req) == Approved;
    assert Resting(s, side, M, n + 1) == Resting(s, side, M, n) + [OpenOrder(s, side, M)];
    RestingAtMost(e, s, side, M, n + 1, K);
    ReachesOne(env, K, d, step);
  }

  /** One resting order filled in full, at price zero. */
  lemma ExecuteOne(env: Env, K: nat, d: Desk, s: SymbolId, net: int, side: Side, M: PosQty, n: nat)
    returns (e: Desk)
    requires 0 < n <= K && Holds(d, s, net, side, M, n)
    ensures Reaches(env, K, d, [Execute(0, M, 0)], e)
    ensures Holds(e, s, net + Signed(side, M), side, M, n - 1)
  {
    hide Post, Quiet;
    var step := Execute(0, M, 0);
    e := Next(env, d, step);
    PostAtZero(env.cfg, d.book, s, side, M);
    PostedNet(env, d, LedgerEvent(s, Fill(side, M, 0)), s);
    assert Without(d.open, 0) == Resting(s, side, M, n - 1);
    RestingAtMost(e, s, side, M, n - 1, K);
    ReachesOne(env, K, d, step);
  }

  lemma {:induction false} SubmitMany(env: Env, K: nat, d: Desk, s: SymbolId, net: int, side: Side, M: nat, n: nat)
    returns (steps: seq<DeskStep>, e: Desk)
    requires SizeAllowed(env, M) && n <= K
    requires Holds(d, s, net, side, M, 0)
    requires PositionAllowed(env, net + Signed(side, M))
    ensures Reaches(env, K, d, steps, e)
    ensures Holds(e, s, net, side, M, n)
    decreases n
  {
    hide Holds;
    if n == 0 {
      steps, e := [], d;
    } else {
      var first, m := SubmitMany(env, K, d, s, net, side, M, n - 1);
      e := SubmitOne(env, K, m, s, net, side, M, n - 1);
      steps := first + [Submit(OrderRequest(s, side, M))];
      ReachesThen(env, K, d, first, m, [Submit(OrderRequest(s, side, M))], e);
    }
  }

  lemma AddOne(n: int, m: int)
    ensures n * m == (n - 1) * m + m
  {
  }

  lemma {:induction false} ExecuteMany(env: Env, K: nat, d: Desk, s: SymbolId, net: int, side: Side, M: PosQty, n: nat)
    returns (steps: seq<DeskStep>, e: Desk)
    requires n <= K && Holds(d, s, net, side, M, n)
    ensures Reaches(env, K, d, steps, e)
    ensures Holds(e, s, net + Signed(side, n * M), side, M, 0)
    decreases n
  {
    hide Holds;
    if n == 0 {
      steps, e := [], d;
    } else {
      var m := ExecuteOne(env, K, d, s, net, side, M, n);
      var rest;
      rest, e := ExecuteMany(env, K, m, s, net + Signed(side, M), side, M, n - 1);
      steps := [Execute(0, M, 0)] + rest;
      ReachesThen(env, K, d, [Execute(0, M, 0)], m, rest, e);
      AddOne(n, M);
    }
  }

  /** Load `n` orders of one size and let them all fill. */
  lemma Burst(env: Env, K: nat, d: Desk, s: SymbolId, net: int, side: Side, M: PosQty, n: nat)
    returns (steps: seq<DeskStep>, e: Desk)
    requires SizeAllowed(env, M) && n <= K
    requires Holds(d, s, net, side, M, 0)
    requires PositionAllowed(env, net + Signed(side, M))
    ensures Reaches(env, K, d, steps, e)
    ensures Holds(e, s, net + Signed(side, n * M), side, M, 0)
  {
    var first, loaded := SubmitMany(env, K, d, s, net, side, M, n);
    var second;
    second, e := ExecuteMany(env, K, loaded, s, net, side, M, n);
    ReachesThen(env, K, d, first, loaded, second, e);
    steps := first + second;
  }

  /** With no order resting, the size and side of the orders do not matter. */
  lemma HoldsNone(d: Desk, s: SymbolId, net: int, side: Side, M: nat, other: Side, N: nat)
    requires Holds(d, s, net, side, M, 0)
    ensures Holds(d, s, net, other, N, 0)
  {
    assert Resting(s, side, M, 0) == [] == Resting(s, other, N, 0);
  }

  /** Single-unit orders, one at a time, take the position anywhere within the limit. */
  lemma {:induction false} WalkTo(env: Env, K: nat, d: Desk, s: SymbolId, side: Side, target: nat)
    returns (steps: seq<DeskStep>, e: Desk)
    requires K >= 1 && PositionAllowed(env, target)
    requires Holds(d, s, 0, side, 1, 0)
    ensures Reaches(env, K, d, steps, e)
    ensures Holds(e, s, Signed(side, target), side, 1, 0)
    decreases target
  {
    hide Holds;
    if target == 0 {
      steps, e := [], d;
    } else {
      var first, m := WalkTo(env, K, d, s, side, target - 1);
      var second;
      second, e := Burst(env, K, m, s, Signed(side, target - 1), side, 1, 1);
      ReachesThen(env, K, d, first, m, second, e);
      steps := first + second;
    }
  }

  /**
   With two orders allowed to rest, a position can be swung to any distance that the order limit
   allows: from d - 2 * L on the other side, two orders of d - L are each approved.
   */
  lemma {:induction false} SwingTo(env: Env, K: nat, d: Desk, s: SymbolId, side: Side, target: nat)
    returns (steps: seq<DeskStep>, e: Desk)
    requires K >= 2 && env.limits.maxPositionPerSymbol >= 1
    requires target >= env.limits.maxPositionPerSymbol ==> SizeAllowed(env, target - env.limits.maxPositionPerSymbol)
    requires Holds(d, s, 0, side, 1, 0)
    ensures Reaches(env, K, d, steps, e)
    ensures Holds(e, s, Signed(side, target), side, 1, 0)
    decreases target
  {
    hide Holds;
    var L := env.limits.maxPositionPerSymbol;
    if target <= L {
      steps, e := WalkTo(env, K, d, s, side, target);
    } else {
      var q := target - L;
      var from := if target >= 2 * L then side.Flip() else side;
      HoldsNone(d, s, 0, side, 1, from, 1);
      var first, near := SwingTo(env, K, d, s, from, Abs(target - 2 * L));
      var at := Signed(side, 2 * L - target);
      HoldsNone(near, s, at, from, 1, side, q);
      var second;
      second, e := Burst(env, K, near, s, at, side, q, 2);
      HoldsNone(e, s, Signed(side, target), side, q, side, 1);
      ReachesThen(env, K, d, first, near, second, e);
      steps := first + second;
    }
  }

  lemma OpeningHolds(cfg: Config, s: SymbolId, side: Side)
    ensures Holds(Opening(cfg), s, 0, side, 1, 0)
  {
  }

  /** The drift bound is reached on either side, whatever the limits, the loss limit included. */
  lemma DriftBoundReached(env: Env, K: nat, s: SymbolId, side: Side)
    returns (steps: seq<DeskStep>, e: Desk)
    requires K >= 1 && Bounded(env.limits, K)
    ensures Reaches(env, K, Opening(env.cfg), steps, e)
    ensures Net(e, s) == Signed(side, DriftLimit(env.limits, K))
  {
    var L: int, M: int, d := env.limits.maxPositionPerSymbol, env.limits.maxOrderSize, Opening(env.cfg);
    OpeningHolds(env.cfg, s, side);
    OpeningHolds(env.cfg, s, side.Flip());
    if K == 1 {
      steps, e := WalkTo(env, K, d, s, side, L);
    } else {
      var from := if M <= L then side else side.Flip();
      var first, near := SwingTo(env, K, d, s, from, Abs(L - M));
      HoldsNone(near, s, Signed(side, L - M), from, 1, side, M);
      var second;
      second, e := Burst(env, K, near, s, Signed(side, L - M), side, M, K);
      ReachesThen(env, K, d, first, near, second, e);
      steps := first + second;
      AddOne(K, M);
    }
  }

  /** Some run ends with exactly `net` of `s`. */
  ghost predicate EndsAt(env: Env, K: nat, s: SymbolId, net: int) {
    exists steps, e :: Reaches(env, K, Opening(env.cfg), steps, e) && Net(e, s) == net
  }

  ghost predicate NeverBeyond(env: Env, K: nat, s: SymbolId, bound: int) {
    forall steps, e :: Reaches(env, K, Opening(env.cfg), steps, e) ==> Abs(Net(e, s)) <= bound
  }

  /**
   Otherwise any distance can be reached, long or short: without a position limit one unit at a
   time, without an order limit by swings of two resting orders.
   */
  lemma DriftUnbounded(env: Env, K: nat, s: SymbolId, side: Side, bound: nat)
    requires K >= 1 && !Bounded(env.limits, K)
    ensures EndsAt(env, K, s, Signed(side, bound))
  {
    OpeningHolds(env.cfg, s, side);
    var steps, e;
    if env.limits.maxPositionPerSymbol == 0 {
      steps, e := WalkTo(env, K, Opening(env.cfg), s, side, bound);
    } else {
      steps, e := SwingTo(env, K, Opening(env.cfg), s, side, bound);
    }
    assert Reaches(env, K, Opening(env.cfg), steps, e) && Net(e, s) == Signed(side, bound);
  }

  /**
   Exactly how far a position can drift, for every position limit, order limit and loss limit:
   L + (K - 1) * M, reached long and short, if there is a position limit, and an order limit or one
   order at a time; otherwise there is no bound at all.
   */
  lemma DriftIsExact(env: Env, K: nat, s: SymbolId)
    requires K >= 1
    ensures (exists bound :: NeverBeyond(env, K, s, bound)) <==> Bounded(env.limits, K)
    ensures Bounded(env.limits, K) ==>
              var limit := env.limits.maxPositionPerSymbol + (K - 1) * env.limits.maxOrderSize;
              NeverBeyond(env, K, s, limit) && EndsAt(env, K, s, limit) && EndsAt(env, K, s, -limit)
  {
    if Bounded(env.limits, K) {
      var limit := env.limits.maxPositionPerSymbol + (K - 1) * env.limits.maxOrderSize;
      forall steps, e | Reaches(env, K, Opening(env.cfg), steps, e)
        ensures Abs(Net(e, s)) <= limit
      {
        DriftBound(env, K, steps, e, s);
      }
      assert NeverBeyond(env, K, s, limit);
      var up, long := DriftBoundReached(env, K, s, Buy);
      var down, short := DriftBoundReached(env, K, s, Sell);
      assert Reaches(env, K, Opening(env.cfg), up, long) && Net(long, s) == limit;
      assert Reaches(env, K, Opening(env.cfg), down, short) && Net(short, s) == -limit;
    } else {
      forall bound
        ensures !NeverBeyond(env, K, s, bound)
      {
        NoBound(env, K, s, bound);
      }
    }
  }

  lemma NoBound(env: Env, K: nat, s: SymbolId, bound: int)
    requires K >= 1 && !Bounded(env.limits, K)
    ensures !NeverBeyond(env, K, s, bound)
  {
    DriftUnbounded(env, K, s, Buy, Abs(bound) + 1);
  }
}
