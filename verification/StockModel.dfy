// What the market has told about one stock: a function of the ticks alone.
module StockModel {
  import opened Timestamp
  import opened IIRFilter
  import opened SnapshotStream
  import WantCache

  datatype Tick = Tick(timestamp: nat, price: int, quantity: int, buyOrderNo: int, sellOrderNo: int) {
    predicate IsSellOrder() {
      buyOrderNo == 0 && sellOrderNo != 0
    }

    predicate IsOrder() {
      (buyOrderNo != 0) != (sellOrderNo != 0)
    }

    predicate IsTrade() {
      buyOrderNo != 0 && sellOrderNo != 0
    }

    function OrderNo(): int {
      if buyOrderNo != 0 then buyOrderNo else sellOrderNo
    }
  }

  // A resting sell order near the limit price.
  datatype UpSell = UpSell(price: int, quantity: int)

  datatype Market = Market(alive: bool, approachingLimitUp: bool, stream: Stream, upSellOrders: map<int, UpSell>,
                           openPrice: int, openVolume: int)

  // An order number already present is kept, as the source's map insertion does.
  function OnOrder(orders: map<int, UpSell>, tick: Tick, approach: int): map<int, UpSell> {
    if tick.IsSellOrder() && tick.price >= approach && tick.OrderNo() !in orders
    then orders[tick.OrderNo() := UpSell(tick.price, tick.quantity)]
    else orders
  }

  function OnCancel(orders: map<int, UpSell>, tick: Tick): map<int, UpSell> {
    if tick.IsSellOrder() then orders - {tick.OrderNo()} else orders
  }

  // A trade takes its quantity from the resting order it hits.
  function OnFill(orders: map<int, UpSell>, tick: Tick): map<int, UpSell> {
    var id := tick.sellOrderNo;
    if id !in orders then orders
    else if orders[id].quantity <= tick.quantity then orders - {id}
    else orders[id := UpSell(orders[id].price, orders[id].quantity - tick.quantity)]
  }

  // The catch-up over the 100 ms grid ends for this tick.
  predicate InDay(tick: Tick) {
    tick.IsTrade() ==> tick.timestamp <= LAST_TIME
  }

  function AsTrade(tick: Tick): Trade {
    Trade(tick.timestamp, tick.price, tick.quantity)
  }

  function OnTradeTick(m: Market, tick: Tick, approach: int): (r: Market)
    requires OnGrid(m.stream) && tick.timestamp <= LAST_TIME
    ensures OnGrid(r.stream)
  {
    var r := m.(upSellOrders := OnFill(m.upSellOrders, tick), stream := OnTrade(m.stream, AsTrade(tick)));
    if tick.timestamp < START then r.(openPrice := tick.price, openVolume := m.openVolume + tick.quantity)
    else r.(approachingLimitUp := m.approachingLimitUp || tick.price >= approach)
  }

  // The effect of one tick; quantity zero marks the end of the stock's day.
  function OnTick(m: Market, tick: Tick, approach: int): (r: Market)
    requires OnGrid(m.stream) && InDay(tick)
    ensures OnGrid(r.stream)
  {
    if !m.alive then m
    else if tick.quantity == 0 then m.(alive := false, approachingLimitUp := false)
    else if tick.IsOrder() then
      if tick.quantity < 0 then m.(upSellOrders := OnCancel(m.upSellOrders, tick))
      else m.(upSellOrders := OnOrder(m.upSellOrders, tick, approach))
    else if tick.IsTrade() then OnTradeTick(m, tick, approach)
    else m
  }

  // A tick leaves the filter fed with exactly the closed snapshots.
  lemma TickFeedsFilter(m: Market, tick: Tick, approach: int)
    requires OnGrid(m.stream) && InDay(tick) && FilterFollows(m.stream)
    ensures FilterFollows(OnTick(m, tick, approach).stream)
  {
    if tick.timestamp <= LAST_TIME { StepUntilFeedsFilter(m.stream, tick.timestamp); }
  }

  // What the owner of a stock calls, in one thread: ticks from the market, and
  // between them the speculative computations and their flags.
  datatype Event = Arrival(tick: Tick) | ClearApproach | CheckApproach | OnApproach

  ghost predicate AllInDay(events: seq<Event>) {
    forall k :: 0 <= k < |events| && events[k].Arrival? ==> InDay(events[k].tick)
  }

  function AfterEvent(m: Market, e: Event, approach: int): (r: Market)
    requires OnGrid(m.stream) && (e.Arrival? ==> InDay(e.tick))
    ensures OnGrid(r.stream)
  {
    match e
    case Arrival(tick) => OnTick(m, tick, approach)
    case ClearApproach => m.(approachingLimitUp := false)
    case _ => m
  }

  function AfterEvents(m: Market, events: seq<Event>, approach: int): (r: Market)
    requires OnGrid(m.stream) && AllInDay(events)
    ensures OnGrid(r.stream)
  {
    if events == [] then m else AfterEvent(AfterEvents(m, Init(events), approach), Last(events), approach)
  }

  // The session a list of events tells, without the speculation.
  function WithoutSpeculation(events: seq<Event>): (r: seq<Event>)
    ensures forall k :: 0 <= k < |r| ==> r[k].Arrival? || r[k].ClearApproach?
    ensures AllInDay(events) ==> AllInDay(r)
  {
    if events == [] then []
    else
      var r, e := WithoutSpeculation(Init(events)), Last(events);
      if e.CheckApproach? || e.OnApproach? then r else r + [e]
  }

  lemma {:induction false} SpeculationHasNoEffect(m: Market, events: seq<Event>, approach: int)
    requires OnGrid(m.stream) && AllInDay(events)
    ensures AfterEvents(m, WithoutSpeculation(events), approach) == AfterEvents(m, events, approach)
  {
    if events != [] {
      var r, e := WithoutSpeculation(Init(events)), Last(events);
      SpeculationHasNoEffect(m, Init(events), approach);
      if !(e.CheckApproach? || e.OnApproach?) {
        assert Init(r + [e]) == r && Last(r + [e]) == e;
      }
    }
  }

  // The trades a stock takes from its events while it is alive.
  function TakenTrades(alive: bool, events: seq<Event>): (r: seq<Trade>)
    requires AllInDay(events)
    ensures Times(r)
  {
    if events == [] then []
    else
      var r, e := TakenTrades(alive, Init(events)), Last(events);
      if StillAlive(alive, Init(events)) && e.Arrival? && e.tick.quantity != 0 &&
         e.tick.buyOrderNo != 0 && e.tick.sellOrderNo != 0
      then r + [Trade(e.tick.timestamp, e.tick.price, e.tick.quantity)] else r
  }

  predicate StillAlive(alive: bool, events: seq<Event>) {
    alive && forall k :: 0 <= k < |events| && events[k].Arrival? ==> events[k].tick.quantity != 0
  }

  // The stream of a day is the stream of the trades taken, whatever orders,
  // cancels and speculation came between them.
  lemma {:induction false} StreamIsOfTrades(m: Market, events: seq<Event>, approach: int, price: int)
    requires m.stream == Initial(price) && AllInDay(events)
    ensures AfterEvents(m, events, approach).stream == Streamed(price, TakenTrades(m.alive, events))
    ensures AfterEvents(m, events, approach).alive == StillAlive(m.alive, events)
  {
    if events != [] {
      var e := Last(events);
      StreamIsOfTrades(m, Init(events), approach, price);
      StillAliveStep(m.alive, events);
      if StillAlive(m.alive, Init(events)) && e.Arrival? && e.tick.quantity != 0 && e.tick.IsTrade() {
        var r := TakenTrades(m.alive, Init(events));
        assert Init(r + [AsTrade(e.tick)]) == r;
      }
    }
  }

  // After any day of events the snapshots are the offline buckets of the trades
  // taken, and their totals are the totals of those trades.
  lemma DayIsBucketing(m: Market, events: seq<Event>, approach: int, price: int)
    requires m.stream == Initial(price) && AllInDay(events)
    ensures var trades, s := TakenTrades(m.alive, events), AfterEvents(m, events, approach).stream;
            && StreamTotals(s) == TradeTotals(trades)
            && FilterFollows(s)
            && (Ordered(trades) ==> Buckets(s, price, trades))
  {
    var trades := TakenTrades(m.alive, events);
    StreamIsOfTrades(m, events, approach, price);
    TotalsAreConserved(price, trades);
    StreamFeedsFilter(price, trades);
    if Ordered(trades) { StreamingIsBucketing(price, trades); }
  }

  lemma StillAliveStep(alive: bool, events: seq<Event>)
    requires events != []
    ensures StillAlive(alive, events) <==>
            StillAlive(alive, Init(events)) && (Last(events).Arrival? ==> Last(events).tick.quantity != 0)
  {
    var n := |events| - 1;
    if StillAlive(alive, Init(events)) && (Last(events).Arrival? ==> Last(events).tick.quantity != 0) {
      forall k | 0 <= k < |events| && events[k].Arrival?
        ensures events[k].tick.quantity != 0
      {
        if k < n { assert Init(events)[k] == events[k]; }
      }
    } else if StillAlive(alive, events) {
      forall k | 0 <= k < n && Init(events)[k].Arrival?
        ensures Init(events)[k].tick.quantity != 0
      {
        assert Init(events)[k] == events[k];
      }
    }
  }

  // ---------- the load of the resting sell orders ----------

  datatype Load = Load(count: nat, volume: int, amount: int)

  function With(l: Load, o: UpSell): Load {
    Load(l.count + 1, l.volume + o.quantity, l.amount + o.price * o.quantity)
  }

  ghost function LoadOf(orders: map<int, UpSell>): (l: Load)
    ensures l.count == |orders|
  {
    if forall k :: k !in orders then assert orders.Keys == {}; Load(0, 0, 0)
    else
      var k :| k in orders;
      RemoveOne(orders, k);
      With(LoadOf(orders - {k}), orders[k])
  }

  lemma RemoveOne(orders: map<int, UpSell>, k: int)
    requires k in orders
    ensures |orders - {k}| == |orders| - 1
  {
    assert (orders - {k}).Keys == orders.Keys - {k};
    assert |(orders - {k}).Keys| == |orders - {k}|;
  }

  lemma WithCommutes(l: Load, a: UpSell, b: UpSell)
    ensures With(With(l, a), b) == With(With(l, b), a)
  {
  }

  // Every resting order is near the limit and has something left to sell.
  ghost predicate Resting(orders: map<int, UpSell>, approach: int) {
    forall id :: id in orders ==> orders[id].quantity > 0 && orders[id].price >= approach
  }

  lemma {:induction false} OrdersRest(m: Market, events: seq<Event>, approach: int)
    requires OnGrid(m.stream) && AllInDay(events) && Resting(m.upSellOrders, approach)
    ensures Resting(AfterEvents(m, events, approach).upSellOrders, approach)
  {
    if events != [] { OrdersRest(m, Init(events), approach); }
  }

  // A trade lowers the resting volume by what it takes from the order it hits: its
  // own quantity, or all that order had left.
  lemma FillTakesQuantity(orders: map<int, UpSell>, tick: Tick)
    requires tick.sellOrderNo in orders
    ensures var left := orders[tick.sellOrderNo].quantity;
            LoadOf(OnFill(orders, tick)).volume ==
            LoadOf(orders).volume - if left <= tick.quantity then left else tick.quantity
  {
    var id, r := tick.sellOrderNo, OnFill(orders, tick);
    LoadInAnyOrder(orders, id);
    if id in r {
      LoadInAnyOrder(r, id);
      assert r - {id} == orders - {id};
    }
  }

  // The load does not depend on the order of the visit.
  lemma {:induction false} LoadInAnyOrder(orders: map<int, UpSell>, k: int)
    requires k in orders
    ensures LoadOf(orders) == With(LoadOf(orders - {k}), orders[k])
    decreases |orders|
  {
    var j :| j in orders && LoadOf(orders) == With(LoadOf(orders - {j}), orders[j]);
    if j != k {
      var rest := orders - {j} - {k};
      RemoveOne(orders, j);
      RemoveOne(orders, k);
      assert rest == orders - {k} - {j};
      assert LoadOf(orders - {j}) == With(LoadOf(rest), orders[k]) by { LoadInAnyOrder(orders - {j}, k); }
      assert LoadOf(orders - {k}) == With(LoadOf(rest), orders[j]) by { LoadInAnyOrder(orders - {k}, j); }
      WithCommutes(LoadOf(rest), orders[k], orders[j]);
    }
  }

  function WithOrder(x: Snapshot, o: UpSell): Snapshot {
    Snapshot(x.lastPrice, x.numTrades + 1, x.volume + o.quantity, x.amount + o.price * o.quantity)
  }

  // x is start with all orders added but the rest.
  ghost predicate PartlyLoaded(x: Snapshot, start: Snapshot, rest: map<int, UpSell>, all: map<int, UpSell>) {
    Loaded(x, LoadOf(rest)) == Loaded(start, LoadOf(all))
  }

  lemma NothingAdded(start: Snapshot, all: map<int, UpSell>)
    ensures PartlyLoaded(start, start, all, all)
  {
  }

  lemma OneAdded(x: Snapshot, start: Snapshot, rest: map<int, UpSell>, k: int, all: map<int, UpSell>)
    requires k in rest && PartlyLoaded(x, start, rest, all)
    ensures PartlyLoaded(WithOrder(x, rest[k]), start, rest - {k}, all) && |rest - {k}| < |rest|
  {
    LoadInAnyOrder(rest, k);
    RemoveOne(rest, k);
  }

  lemma AllAdded(x: Snapshot, start: Snapshot, rest: map<int, UpSell>, all: map<int, UpSell>)
    requires (forall k :: k !in rest) && PartlyLoaded(x, start, rest, all)
    ensures x == Loaded(start, LoadOf(all))
  {
  }

  // ---------- the speculative computation ----------

  // The stream had the resting orders all traded by `future` and the price gone
  // to the limit.
  function Speculated(s: Stream, future: nat, load: Load, limit: int): (r: Stream)
    requires OnGrid(s) && future <= LAST_TIME
    ensures Shaped(r.filter)
  {
    var r := StepUntil(s, future);
    Close(r.(current := Loaded(r.current, load).(lastPrice := limit)))
  }

  function Loaded(x: Snapshot, l: Load): Snapshot {
    Snapshot(x.lastPrice, x.numTrades + l.count, x.volume + l.volume, x.amount + l.amount)
  }

  lemma {:induction false} StepUntilExtends(s: Stream, t: nat)
    requires OnGrid(s) && t <= LAST_TIME
    ensures s.snapshots <= StepUntil(s, t).snapshots
    decreases LAST - |s.snapshots|
  {
    if t > s.next {
      GridIncreases(LAST);
      StepUntilExtends(Stepped(s), t);
    }
  }

  // The speculative stream extends the real one and its filter belongs to it.
  lemma SpeculatedExtends(s: Stream, future: nat, load: Load, limit: int)
    requires OnGrid(s) && future <= LAST_TIME
    ensures var r := Speculated(s, future, load, limit);
            s.snapshots < r.snapshots && (FilterFollows(s) ==> FilterFollows(r))
  {
    var r := StepUntil(s, future);
    StepUntilExtends(s, future);
    if FilterFollows(s) {
      StepUntilFeedsFilter(s, future);
      CloseFeedsFilter(r.(current := Loaded(r.current, load).(lastPrice := limit)));
    }
  }

  // The factor computations and the model, of which only the inputs are known.
  type Model = (seq<Snapshot>, CrowdInd, int, int) -> bool

  predicate Decides(model: Model, s: Stream, openPrice: int, openVolume: int)
    requires FilterFollows(s)
  {
    s.snapshots != [] && model(s.snapshots, Indicators(s), openPrice, openVolume)
  }

  // The decision for a time: the model on the real stream with all resting
  // orders traded by then.
  ghost predicate Wanted(model: Model, m: Market, future: nat, limit: int)
    requires Sound(m.stream) && future <= LAST_TIME
  {
    var load := LoadOf(m.upSellOrders);
    SpeculatedExtends(m.stream, future, load, limit);
    Decides(model, Speculated(m.stream, future, load, limit), m.openPrice, m.openVolume)
  }

  // Between two ticks: the next grid time, and a filter fed with the snapshots.
  ghost predicate Sound(s: Stream) {
    OnGrid(s) && FilterFollows(s)
  }

  // The indicators of a stream; the energies they divide by are never negative.
  function Indicators(s: Stream): CrowdInd
    requires FilterFollows(s)
  {
    WindowsNest(Volumes(s.snapshots));
    Report(s.filter)
  }

  // ---------- the engine's whole run, decisions included ----------

  // What is fixed for a stock: the price that counts as near, the limit price, and
  // the model.
  datatype Setup = Setup(approach: int, limit: int, model: Model)

  // The market's view, the time of the next speculative computation, whether it is
  // the first of its approach, and all decisions pushed so far.
  datatype Desk = Desk(market: Market, future: nat, first: bool, pushes: seq<WantCache.Decision>)

  ghost predicate DeskReady(d: Desk) {
    Sound(d.market.stream) && IsGridTime(d.future)
  }

  // The decision for the desk's future time, from the real market.
  ghost function NextDecision(setup: Setup, d: Desk): WantCache.Decision
    requires DeskReady(d)
  {
    GridTimeInDay(d.future);
    WantCache.Decision(Linear(d.future), Wanted(setup.model, d.market, d.future, setup.limit))
  }

  // Push it, and go on to the next grid time.
  ghost function Deliberate(setup: Setup, d: Desk): (r: Desk)
    requires DeskReady(d)
    ensures DeskReady(r) && r.market == d.market && r.first == d.first
  {
    AdvanceGridTime(d.future);
    d.(future := Advance100ms(d.future), pushes := d.pushes + [NextDecision(setup, d)])
  }

  // While approaching the limit a check restarts the future time at the open
  // snapshot's; a computation decides once, and the first one twice.
  ghost function AfterDeskEvent(setup: Setup, d: Desk, e: Event): (r: Desk)
    requires DeskReady(d) && (e.Arrival? ==> InDay(e.tick))
    ensures DeskReady(r) && r.market == AfterEvent(d.market, e, setup.approach)
  {
    match e
    case Arrival(tick) =>
      TickFeedsFilter(d.market, tick, setup.approach);
      d.(market := OnTick(d.market, tick, setup.approach))
    case ClearApproach => d.(market := d.market.(approachingLimitUp := false))
    case CheckApproach =>
      if d.market.approachingLimitUp then
        OpenTimeOnGrid(d.market.stream);
        d.(future := d.market.stream.next, first := true)
      else d
    case OnApproach => if d.market.approachingLimitUp then Approach(setup, d) else d
  }

  ghost function Approach(setup: Setup, d: Desk): (r: Desk)
    requires DeskReady(d)
    ensures DeskReady(r) && r.market == d.market
  {
    var r := Deliberate(setup, d);
    if d.first then Deliberate(setup, r.(first := false)) else r
  }

  lemma OpenTimeOnGrid(s: Stream)
    requires OnGrid(s)
    ensures IsGridTime(s.next)
  {
    assert s.next == Grid(|s.snapshots|);
  }

  ghost function AfterDeskEvents(setup: Setup, d: Desk, events: seq<Event>): (r: Desk)
    requires DeskReady(d) && AllInDay(events)
    ensures DeskReady(r) && r.market == AfterEvents(d.market, events, setup.approach)
  {
    if events == [] then d else AfterDeskEvent(setup, AfterDeskEvents(setup, d, Init(events)), Last(events))
  }

  // Decisions are only ever added, each for a grid time.
  ghost predicate Adds(before: seq<WantCache.Decision>, after: seq<WantCache.Decision>) {
    before <= after && (WantCache.GridTimes(before) ==> WantCache.GridTimes(after))
  }

  lemma DeliberateAdds(setup: Setup, d: Desk)
    requires DeskReady(d)
    ensures Adds(d.pushes, Deliberate(setup, d).pushes)
  {
    GridTimeInDay(d.future);
  }

  lemma ApproachAdds(setup: Setup, d: Desk)
    requires DeskReady(d)
    ensures Adds(d.pushes, Approach(setup, d).pushes)
  {
    DeliberateAdds(setup, d);
    var r := Deliberate(setup, d);
    DeliberateAdds(setup, r.(first := false));
  }

  lemma EventAdds(setup: Setup, d: Desk, e: Event)
    requires DeskReady(d) && (e.Arrival? ==> InDay(e.tick))
    ensures Adds(d.pushes, AfterDeskEvent(setup, d, e).pushes)
  {
    if e.OnApproach? && d.market.approachingLimitUp { ApproachAdds(setup, d); }
  }

  lemma AddsTwice(a: seq<WantCache.Decision>, b: seq<WantCache.Decision>, c: seq<WantCache.Decision>)
    requires Adds(a, b) && Adds(b, c)
    ensures Adds(a, c)
  {
  }

  lemma {:induction false} DecisionsOnlyAdded(setup: Setup, d: Desk, events: seq<Event>)
    requires DeskReady(d) && AllInDay(events)
    ensures Adds(d.pushes, AfterDeskEvents(setup, d, events).pushes)
  {
    if events != [] {
      var before := AfterDeskEvents(setup, d, Init(events));
      DecisionsOnlyAdded(setup, d, Init(events));
      EventAdds(setup, before, Last(events));
      AddsTwice(d.pushes, before.pushes, AfterDeskEvent(setup, before, Last(events)).pushes);
    }
  }

  // A run one event longer.
  lemma NextDesk(setup: Setup, d: Desk, events: seq<Event>, i: nat)
    requires DeskReady(d) && AllInDay(events) && i < |events|
    ensures AllInDay(events[..i]) && AllInDay(events[..i + 1]) && (events[i].Arrival? ==> InDay(events[i].tick))
    ensures AfterDeskEvents(setup, d, events[..i + 1]) ==
            AfterDeskEvent(setup, AfterDeskEvents(setup, d, events[..i]), events[i])
  {
    assert Init(events[..i + 1]) == events[..i] && Last(events[..i + 1]) == events[i];
  }
}
