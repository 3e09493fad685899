// What a day's ticks leave of a stock, read off the list of its events: which orders
// rest and with how much, whether it is approaching the limit, and its opening trades.
module StockHistory {
  import opened Options
  import opened Timestamp
  import opened SnapshotStream
  import opened StockModel

  lemma {:induction false} AliveAfter(m: Market, events: seq<Event>, approach: int)
    requires OnGrid(m.stream) && AllInDay(events)
    ensures AfterEvents(m, events, approach).alive == StillAlive(m.alive, events)
  {
    if events != [] {
      AliveAfter(m, Init(events), approach);
      StillAliveStep(m.alive, events);
    }
  }

  // ---------- one order ----------

  // The ticks a stock takes: those before the one that ends its day.
  function TakenTicks(alive: bool, events: seq<Event>): seq<Tick> {
    if events == [] then []
    else
      var r, e := TakenTicks(alive, Init(events)), Last(events);
      if StillAlive(alive, Init(events)) && e.Arrival? && e.tick.quantity != 0 then r + [e.tick] else r
  }

  // A sell order for at least the approach price.
  predicate Places(t: Tick, id: int, approach: int) {
    t.buyOrderNo == 0 && t.sellOrderNo == id != 0 && t.quantity > 0 && t.price >= approach
  }

  predicate Cancels(t: Tick, id: int) {
    t.buyOrderNo == 0 && t.sellOrderNo == id != 0 && t.quantity < 0
  }

  predicate Hits(t: Tick, id: int) {
    t.buyOrderNo != 0 && t.sellOrderNo == id != 0
  }

  // Order id after a tick: it is placed unless it rests already, a cancel removes it, and
  // a trade takes its quantity from it or all there is.
  function Changed(o: Option<UpSell>, t: Tick, id: int, approach: int): Option<UpSell> {
    if Places(t, id, approach) && o.None? then Some(UpSell(t.price, t.quantity))
    else if Cancels(t, id) then None
    else if Hits(t, id) && o.Some? then
      if o.value.quantity <= t.quantity then None
      else Some(UpSell(o.value.price, o.value.quantity - t.quantity))
    else o
  }

  // Order id after the first n ticks.
  function OrderAfter(ticks: seq<Tick>, n: nat, id: int, approach: int): Option<UpSell>
    requires n <= |ticks|
  {
    if n == 0 then None else Changed(OrderAfter(ticks, n - 1, id, approach), ticks[n - 1], id, approach)
  }

  lemma {:induction false} OneMoreTick(ticks: seq<Tick>, t: Tick, n: nat, id: int, approach: int)
    requires n <= |ticks|
    ensures OrderAfter(ticks + [t], n, id, approach) == OrderAfter(ticks, n, id, approach)
  {
    if n > 0 { OneMoreTick(ticks, t, n - 1, id, approach); }
  }

  function Lookup(orders: map<int, UpSell>, id: int): Option<UpSell> {
    if id in orders then Some(orders[id]) else None
  }

  lemma TickChangesOrder(m: Market, t: Tick, id: int, approach: int)
    requires OnGrid(m.stream) && InDay(t) && m.alive && t.quantity != 0
    ensures Lookup(OnTick(m, t, approach).upSellOrders, id) == Changed(Lookup(m.upSellOrders, id), t, id, approach)
  {
  }

  lemma {:induction false} OrdersFollowTicks(m: Market, events: seq<Event>, id: int, approach: int)
    requires OnGrid(m.stream) && AllInDay(events) && id !in m.upSellOrders
    ensures var ticks := TakenTicks(m.alive, events);
            Lookup(AfterEvents(m, events, approach).upSellOrders, id) == OrderAfter(ticks, |ticks|, id, approach)
  {
    if events != [] {
      var before, e, ticks := AfterEvents(m, Init(events), approach), Last(events), TakenTicks(m.alive, Init(events));
      OrdersFollowTicks(m, Init(events), id, approach);
      AliveAfter(m, Init(events), approach);
      if before.alive && e.Arrival? && e.tick.quantity != 0 {
        TickChangesOrder(before, e.tick, id, approach);
        OneMoreTick(ticks, e.tick, |ticks|, id, approach);
      }
    }
  }

  // What the trades after tick i and before tick n have hit of order id.
  function Sold(ticks: seq<Tick>, id: int, i: nat, n: nat): int
    requires n <= |ticks|
  {
    if n <= i + 1 then 0
    else Sold(ticks, id, i, n - 1) + if Hits(ticks[n - 1], id) then ticks[n - 1].quantity else 0
  }

  // After n ticks order id rests since tick i: that tick placed it, none since has
  // cancelled it, and at no time since had the trades sold it out.
  ghost predicate RestsSince(ticks: seq<Tick>, n: nat, id: int, i: nat, approach: int)
    requires n <= |ticks|
  {
    && i < n && Places(ticks[i], id, approach) && OrderAfter(ticks, i, id, approach) == None
    && (forall j :: i < j < n ==> !Cancels(ticks[j], id))
    && (forall j :: i < j <= n ==> Sold(ticks, id, i, j) < ticks[i].quantity)
  }

  // A resting order has the price it was placed with and what the trades have left of
  // its quantity.
  lemma {:induction false} RestsWithTheRest(ticks: seq<Tick>, n: nat, id: int, i: nat, approach: int)
    requires n <= |ticks| && RestsSince(ticks, n, id, i, approach)
    ensures OrderAfter(ticks, n, id, approach) ==
            Some(UpSell(ticks[i].price, ticks[i].quantity - Sold(ticks, id, i, n)))
  {
    if n > i + 1 {
      RestsWithTheRest(ticks, n - 1, id, i, approach);
      assert Sold(ticks, id, i, n) < ticks[i].quantity;
    }
  }

  lemma {:induction false} RestingWasPlaced(ticks: seq<Tick>, n: nat, id: int, approach: int) returns (i: nat)
    requires n <= |ticks| && OrderAfter(ticks, n, id, approach).Some?
    ensures RestsSince(ticks, n, id, i, approach)
  {
    if OrderAfter(ticks, n - 1, id, approach).Some? {
      i := RestingWasPlaced(ticks, n - 1, id, approach);
      RestsWithTheRest(ticks, n - 1, id, i, approach);
      assert Sold(ticks, id, i, n - 1) < ticks[i].quantity;
    } else {
      i := n - 1;
    }
  }

  // Which orders rest after a day's events, and with what.
  lemma RestingIff(m: Market, events: seq<Event>, ticks: seq<Tick>, n: nat, id: int, approach: int)
    requires OnGrid(m.stream) && AllInDay(events) && id !in m.upSellOrders
    requires ticks == TakenTicks(m.alive, events) && n == |ticks|
    ensures var orders := AfterEvents(m, events, approach).upSellOrders;
            && (id in orders <==> exists i :: 0 <= i && RestsSince(ticks, n, id, i, approach))
            && (forall i: nat :: RestsSince(ticks, n, id, i, approach) ==>
                  id in orders &&
                  orders[id] == UpSell(ticks[i].price, ticks[i].quantity - Sold(ticks, id, i, n)))
  {
    OrdersFollowTicks(m, events, id, approach);
    forall i: nat | RestsSince(ticks, n, id, i, approach)
      ensures OrderAfter(ticks, n, id, approach) ==
              Some(UpSell(ticks[i].price, ticks[i].quantity - Sold(ticks, id, i, n)))
    {
      RestsWithTheRest(ticks, n, id, i, approach);
    }
    if OrderAfter(ticks, n, id, approach).Some? {
      var i := RestingWasPlaced(ticks, n, id, approach);
    }
  }

  // ---------- the approach flag ----------

  // The event trades in the session for at least the approach price.
  predicate Raises(e: Event, approach: int) {
    && e.Arrival? && e.tick.quantity != 0 && e.tick.buyOrderNo != 0 && e.tick.sellOrderNo != 0
    && e.tick.timestamp >= 9_30_00_000 && e.tick.price >= approach
  }

  ghost predicate RaisedSince(events: seq<Event>, approach: int, i: nat) {
    i < |events| && Raises(events[i], approach) && forall j :: i < j < |events| ==> !events[j].ClearApproach?
  }

  ghost predicate Raised(events: seq<Event>, approach: int) {
    exists i :: 0 <= i < |events| && RaisedSince(events, approach, i)
  }

  lemma RaisedStep(events: seq<Event>, approach: int)
    requires events != []
    ensures Raised(events, approach) <==>
            Raises(Last(events), approach) || (Raised(Init(events), approach) && !Last(events).ClearApproach?)
  {
    if Raises(Last(events), approach) {
      assert RaisedSince(events, approach, |events| - 1);
    } else {
      if Raised(Init(events), approach) && !Last(events).ClearApproach? { RaisedStays(events, approach); }
      if Raised(events, approach) { RaisedEarlier(events, approach); }
    }
  }

  lemma RaisedStays(events: seq<Event>, approach: int)
    requires events != [] && Raised(Init(events), approach) && !Last(events).ClearApproach?
    ensures Raised(events, approach)
  {
    var i :| 0 <= i < |Init(events)| && RaisedSince(Init(events), approach, i);
    forall j | i < j < |events|
      ensures !events[j].ClearApproach?
    {
      if j < |events| - 1 { assert events[j] == Init(events)[j]; }
    }
    assert RaisedSince(events, approach, i);
  }

  lemma RaisedEarlier(events: seq<Event>, approach: int)
    requires events != [] && Raised(events, approach) && !Raises(Last(events), approach)
    ensures Raised(Init(events), approach) && !Last(events).ClearApproach?
  {
    var i :| 0 <= i < |events| && RaisedSince(events, approach, i);
    assert Init(events)[i] == events[i];
    assert RaisedSince(Init(events), approach, i);
  }

  // The stock is approaching the limit exactly while its day goes on and some trade of
  // the session for the approach price or more has come since the flag was last cleared.
  lemma {:induction false} ApproachingIff(m: Market, events: seq<Event>, approach: int)
    requires OnGrid(m.stream) && AllInDay(events) && !m.approachingLimitUp
    ensures AfterEvents(m, events, approach).approachingLimitUp <==>
            StillAlive(m.alive, events) && Raised(events, approach)
  {
    if events != [] {
      ApproachingIff(m, Init(events), approach);
      AliveAfter(m, Init(events), approach);
      StillAliveStep(m.alive, events);
      RaisedStep(events, approach);
    }
  }

  // ---------- the opening ----------

  function Early(trades: seq<Trade>): seq<Trade> {
    if trades == [] then []
    else if Last(trades).timestamp < 9_30_00_000 then Early(Init(trades)) + [Last(trades)]
    else Early(Init(trades))
  }

  function Quantity(trades: seq<Trade>): int {
    if trades == [] then 0 else Quantity(Init(trades)) + Last(trades).quantity
  }

  // The opening price is that of the last trade taken before 9:30, the opening volume
  // what all of them traded.
  lemma {:induction false} OpeningOfTrades(m: Market, events: seq<Event>, approach: int)
    requires OnGrid(m.stream) && AllInDay(events)
    ensures var r, early := AfterEvents(m, events, approach), Early(TakenTrades(m.alive, events));
            && r.openPrice == (if early == [] then m.openPrice else Last(early).price)
            && r.openVolume == m.openVolume + Quantity(early)
  {
    if events != [] {
      var e, r := Last(events), TakenTrades(m.alive, Init(events));
      OpeningOfTrades(m, Init(events), approach);
      AliveAfter(m, Init(events), approach);
      if StillAlive(m.alive, Init(events)) && e.Arrival? && e.tick.quantity != 0 && e.tick.IsTrade() {
        assert Init(r + [AsTrade(e.tick)]) == r;
        assert Init(Early(r) + [AsTrade(e.tick)]) == Early(r);
      }
    }
  }
}
