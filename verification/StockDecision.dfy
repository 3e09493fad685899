// What the decisions of a stock are made from, and which orders, prices and flags its
// events leave.
module StockDecision {
  import opened Options
  import opened Timestamp
  import opened IIRFilter
  import opened SnapshotStream
  import opened StockModel
  import WantCache

  // ---------- the pushed decision ----------

  // Snapshot x with the resting orders traded in it and the price at the limit.
  function AtLimit(x: Snapshot, load: Load, limit: int): Snapshot {
    Snapshot(limit, x.numTrades + load.count, x.volume + load.volume, x.amount + load.amount)
  }

  // The real snapshots, then those up to bucket b: the open one and empty ones, the
  // last of them at the limit.
  function Ahead(s: Stream, b: nat, load: Load, limit: int): (r: seq<Snapshot>)
    ensures |s.snapshots| < |r| && r[..|s.snapshots|] == s.snapshots
  {
    var n := |s.snapshots|;
    if b <= n then s.snapshots + [AtLimit(s.current, load, limit)]
    else
      var empty := Snapshot(s.current.lastPrice, 0, 0, 0);
      s.snapshots + [s.current] + seq(b - n - 1, _ => empty) + [AtLimit(empty, load, limit)]
  }

  // The decision for time t: whether the model accepts the snapshots ahead, their
  // indicators, the opening price and the opening volume.
  ghost function DecisionFor(setup: Setup, m: Market, t: nat): WantCache.Decision {
    var r := Ahead(m.stream, Bucket(t), LoadOf(m.upSellOrders), setup.limit);
    WantCache.Decision(Linear(t), setup.model(r, IndicatorsOf(Volumes(r)), m.openPrice, m.openVolume))
  }

  lemma SpeculatedIsAhead(s: Stream, t: nat, load: Load, limit: int)
    requires OnGrid(s) && IsTime(t) && t <= LAST_TIME
    ensures Speculated(s, t, load, limit).snapshots == Ahead(s, Bucket(t), load, limit)
  {
    StepUntilCatchesUp(s, t);
    CaughtUpThenClosed(s, StepUntil(s, t), Bucket(t), load, limit);
  }

  lemma CaughtUpThenClosed(s: Stream, r: Stream, b: nat, load: Load, limit: int)
    requires CaughtUp(s, r, b)
    ensures r.snapshots + [AtLimit(r.current, load, limit)] == Ahead(s, b, load, limit)
  {
  }

  // What one computation pushes: to buy exactly when the model accepts the real snapshots
  // and those ahead, the indicators of a filter fed with their volumes, the opening price
  // and the opening volume.
  lemma PushedDecision(setup: Setup, d: Desk)
    requires DeskReady(d)
    ensures NextDecision(setup, d) == DecisionFor(setup, d.market, d.future)
    ensures var m := d.market;
            var r := Ahead(m.stream, Bucket(d.future), LoadOf(m.upSellOrders), setup.limit);
            && NextDecision(setup, d).time == Linear(d.future)
            && (NextDecision(setup, d).want <==>
                setup.model(r, IndicatorsOf(Volumes(r)), m.openPrice, m.openVolume))
  {
    var load := LoadOf(d.market.upSellOrders);
    GridTimeIsTime(d.future);
    GridTimeInDay(d.future);
    SpeculatedIsAhead(d.market.stream, d.future, load, setup.limit);
    SpeculatedExtends(d.market.stream, d.future, load, setup.limit);
  }

  lemma GridTimeIsTime(t: nat)
    requires IsGridTime(t)
    ensures IsTime(t)
  {
    var i :| MIDNIGHT <= i <= LAST && t == Grid(i);
    GridPoint(i);
  }

  lemma DeliberatePushes(setup: Setup, d: Desk)
    requires DeskReady(d)
    ensures Deliberate(setup, d) ==
            Desk(d.market, Advance100ms(d.future), d.first, d.pushes + [DecisionFor(setup, d.market, d.future)])
  {
    PushedDecision(setup, d);
  }

  lemma TwoPushes(a: seq<WantCache.Decision>, x: WantCache.Decision, y: WantCache.Decision)
    ensures a + [x] + [y] == a + [x, y]
  {
  }

  // A computation pushes nothing while the stock is not approaching the limit, two
  // decisions for consecutive grid times when it is the first, and else one.
  lemma ApproachPushes(setup: Setup, d: Desk)
    requires DeskReady(d)
    ensures var r, next := AfterDeskEvent(setup, d, OnApproach), Advance100ms(d.future);
            if !d.market.approachingLimitUp then r == d
            else if d.first then
              r == Desk(d.market, Advance100ms(next), false,
                        d.pushes + [DecisionFor(setup, d.market, d.future), DecisionFor(setup, d.market, next)])
            else r == Desk(d.market, next, false, d.pushes + [DecisionFor(setup, d.market, d.future)])
  {
    var m, next := d.market, Advance100ms(d.future);
    DeliberatePushes(setup, d);
    if d.first {
      DeliberatePushes(setup, Deliberate(setup, d).(first := false));
      TwoPushes(d.pushes, DecisionFor(setup, m, d.future), DecisionFor(setup, m, next));
    }
  }

  lemma CheckRestarts(setup: Setup, d: Desk)
    requires DeskReady(d) && d.market.approachingLimitUp
    ensures AfterDeskEvent(setup, d, CheckApproach) ==
            Desk(d.market, Grid(|d.market.stream.snapshots|), true, d.pushes)
  {
  }

  // The computations at grid point i.
  lemma ApproachAtGrid(setup: Setup, d: Desk, i: int)
    requires DeskReady(d) && d.market.approachingLimitUp && MIDNIGHT <= i < LAST && d.future == Grid(i)
    ensures AfterDeskEvent(setup, d, OnApproach) ==
            if d.first then
              Desk(d.market, Grid(i + 2), false,
                   d.pushes + [DecisionFor(setup, d.market, Grid(i)), DecisionFor(setup, d.market, Grid(i + 1))])
            else Desk(d.market, Grid(i + 1), false, d.pushes + [DecisionFor(setup, d.market, Grid(i))])
  {
    GridAdvances(i);
    GridAdvances(i + 1);
    ApproachPushes(setup, d);
  }

  // A check that finds the stock approaching makes the next computation decide for the
  // open snapshot's grid time and the one after it.
  lemma CheckThenApproach(setup: Setup, d: Desk, n: nat, c: Desk)
    requires DeskReady(d) && d.market.approachingLimitUp && n == |d.market.stream.snapshots| < LAST
    requires c == AfterDeskEvent(setup, d, CheckApproach)
    ensures c.market == d.market && c.pushes == d.pushes
    ensures AfterDeskEvent(setup, c, OnApproach) ==
            Desk(d.market, Grid(n + 2), false,
                 d.pushes + [DecisionFor(setup, d.market, Grid(n)), DecisionFor(setup, d.market, Grid(n + 1))])
  {
    CheckRestarts(setup, d);
    ApproachAtGrid(setup, c, n);
  }

  // Where in a longer list of decisions the new ones are.
  lemma OneOrTwoNew(a: seq<WantCache.Decision>, x: WantCache.Decision, y: WantCache.Decision, k: nat)
    ensures |a| <= k < |a + [x]| ==> (a + [x])[k] == x
    ensures |a| <= k < |a + [x, y]| ==> (a + [x, y])[k] == if k == |a| then x else y
  {
  }

  lemma NewDecision(setup: Setup, d: Desk, e: Event, after: seq<WantCache.Decision>, k: nat) returns (t: nat)
    requires DeskReady(d) && (e.Arrival? ==> InDay(e.tick))
    requires after == AfterDeskEvent(setup, d, e).pushes && |d.pushes| <= k < |after|
    ensures e.OnApproach? && d.market.approachingLimitUp && IsGridTime(t)
    ensures after[k] == DecisionFor(setup, d.market, t)
  {
    var next := Advance100ms(d.future);
    t := if k == |d.pushes| then d.future else next;
    if e.OnApproach? {
      ApproachPushes(setup, d);
      AdvanceGridTime(d.future);
      OneOrTwoNew(d.pushes, DecisionFor(setup, d.market, d.future), DecisionFor(setup, d.market, next), k);
    }
  }

  lemma OldDecision(setup: Setup, d: Desk, e: Event, after: seq<WantCache.Decision>, k: nat)
    requires DeskReady(d) && (e.Arrival? ==> InDay(e.tick)) && k < |d.pushes|
    requires after == AfterDeskEvent(setup, d, e).pushes
    ensures k < |after| && after[k] == d.pushes[k]
  {
    EventAdds(setup, d, e);
  }

  // x was made by event i of the run, a computation, for grid time t, from the real
  // market of that moment.
  ghost predicate MadeAt(setup: Setup, m: Market, events: seq<Event>, x: WantCache.Decision, i: nat, t: nat)
    requires OnGrid(m.stream) && AllInDay(events)
  {
    && i < |events| && events[i].OnApproach? && IsGridTime(t)
    && var now := AfterEvents(m, events[..i], setup.approach);
       now.approachingLimitUp && x == DecisionFor(setup, now, t)
  }

  lemma MadeEarlier(setup: Setup, m: Market, events: seq<Event>, x: WantCache.Decision, i: nat, t: nat)
    requires OnGrid(m.stream) && AllInDay(events) && events != [] && MadeAt(setup, m, Init(events), x, i, t)
    ensures MadeAt(setup, m, events, x, i, t)
  {
    assert Init(events)[..i] == events[..i];
  }

  lemma MadeLast(setup: Setup, d: Desk, events: seq<Event>, before: Desk, k: nat, after: seq<WantCache.Decision>)
      returns (t: nat)
    requires DeskReady(d) && AllInDay(events) && events != []
    requires before == AfterDeskEvents(setup, d, Init(events))
    requires after == AfterDeskEvent(setup, before, Last(events)).pushes && |before.pushes| <= k < |after|
    ensures MadeAt(setup, d.market, events, after[k], |events| - 1, t)
  {
    t := NewDecision(setup, before, Last(events), after, k);
  }

  // No decision of a run is left over or made up: each was made by a computation of the
  // run from the real market of that moment.
  lemma {:induction false} DecisionsAreMadeInRun(setup: Setup, d: Desk, events: seq<Event>,
                                                 after: seq<WantCache.Decision>, k: nat) returns (i: nat, t: nat)
    requires DeskReady(d) && AllInDay(events)
    requires after == AfterDeskEvents(setup, d, events).pushes && |d.pushes| <= k < |after|
    ensures MadeAt(setup, d.market, events, after[k], i, t)
  {
    if events != [] {
      var before := AfterDeskEvents(setup, d, Init(events));
      if k < |before.pushes| {
        i, t := DecisionsAreMadeInRun(setup, d, Init(events), before.pushes, k);
        OldDecision(setup, before, Last(events), after, k);
        MadeEarlier(setup, d.market, events, after[k], i, t);
      } else {
        i := |events| - 1;
        t := MadeLast(setup, d, events, before, k, after);
      }
    }
  }

  // ---------- the load ----------

  function QuantitySum(sells: seq<UpSell>): int {
    if sells == [] then 0 else QuantitySum(Init(sells)) + Last(sells).quantity
  }

  function AmountSum(sells: seq<UpSell>): int {
    if sells == [] then 0 else AmountSum(Init(sells)) + Last(sells).price * Last(sells).quantity
  }

  // ids and sells list the orders, each once, in any order.
  ghost predicate Lists(orders: map<int, UpSell>, ids: seq<int>, sells: seq<UpSell>) {
    && |ids| == |sells|
    && (forall i, j :: 0 <= i < j < |ids| ==> ids[i] != ids[j])
    && (forall i :: 0 <= i < |ids| ==> ids[i] in orders && orders[ids[i]] == sells[i])
    && (forall id :: id in orders ==> id in ids)
  }

  lemma ListsRest(orders: map<int, UpSell>, ids: seq<int>, sells: seq<UpSell>)
    requires Lists(orders, ids, sells) && ids != []
    ensures Last(ids) in orders && orders[Last(ids)] == Last(sells)
    ensures Lists(orders - {Last(ids)}, Init(ids), Init(sells))
  {
    forall id | id in orders - {Last(ids)}
      ensures id in Init(ids)
    {
      assert id in ids;
    }
  }

  lemma SumsStep(sells: seq<UpSell>)
    requires sells != []
    ensures With(Load(|sells| - 1, QuantitySum(Init(sells)), AmountSum(Init(sells))), Last(sells)) ==
            Load(|sells|, QuantitySum(sells), AmountSum(sells))
  {
  }

  // The load counts every resting order once, with its quantity and its value.
  lemma {:induction false} LoadIsSum(orders: map<int, UpSell>, ids: seq<int>, sells: seq<UpSell>)
    requires Lists(orders, ids, sells)
    ensures LoadOf(orders) == Load(|ids|, QuantitySum(sells), AmountSum(sells))
  {
    if ids == [] {
      assert forall id :: id !in orders;
    } else {
      ListsRest(orders, ids, sells);
      LoadInAnyOrder(orders, Last(ids));
      LoadIsSum(orders - {Last(ids)}, Init(ids), Init(sells));
      SumsStep(sells);
    }
  }
}
