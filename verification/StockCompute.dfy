// The per-stock engine: the stream's fields changed in place, the speculative
// computation that changes them too, and the rollback by swapping filters.
module StockEngine {
  import opened Arith
  import opened Timestamp
  import opened IIRFilter
  import opened IIRObject
  import opened SnapshotStream
  import opened StockModel
  import opened StockDecision
  import WantCache

  class StockCompute {
    const upperLimitPrice: int
    const upperLimitPriceApproach: int
    const model: Model
    const wantCache: WantCache.Cache

    var alive: bool
    var approachingLimitUp: bool
    var firstCompute: bool
    var futureTimestamp: nat

    // fState
    var nextTickTimestamp: nat
    var currSnapshot: Snapshot
    var snapshots: seq<Snapshot>
    var iirState: IIRState

    // bState
    var savedNextTickTimestamp: nat
    var savedCurrSnapshot: Snapshot
    var oldSnapshotsCount: nat
    var savedIirState: IIRState
    var savingMode: bool

    var upSellOrders: map<int, UpSell>
    var openPrice: int
    var openVolume: int

    // The two filters are separate objects, and neither holds the engine.
    ghost predicate Separate()
      reads this, iirState, savedIirState
    {
      && iirState.Valid() && savedIirState.Valid() && iirState.Repr !! savedIirState.Repr
      && this !in iirState.Repr && this !in savedIirState.Repr
    }

    ghost predicate CacheApart()
      reads this, wantCache, wantCache.wantBuyTimestamp
    {
      && wantCache.Valid() && WantCache.GridTimes(wantCache.pushes)
      && wantCache !in iirState.Repr && wantCache !in savedIirState.Repr
      && wantCache.wantBuyTimestamp !in iirState.Repr && wantCache.wantBuyTimestamp !in savedIirState.Repr
    }

    ghost function AsStream(): (s: Stream)
      reads this, iirState, iirState.Repr
      requires iirState.Valid()
      ensures Shaped(s.filter)
    {
      Stream(nextTickTimestamp, currSnapshot, snapshots, iirState.AsView())
    }

    ghost function AsMarket(): Market
      reads this, iirState, iirState.Repr
      requires iirState.Valid()
    {
      Market(alive, approachingLimitUp, AsStream(), upSellOrders, openPrice, openVolume)
    }

    ghost function AsSetup(): Setup {
      Setup(upperLimitPriceApproach, upperLimitPrice, model)
    }

    ghost function AsDesk(): Desk
      reads this, iirState, iirState.Repr, wantCache
      requires iirState.Valid()
    {
      Desk(AsMarket(), futureTimestamp, firstCompute, wantCache.pushes)
    }

    ghost predicate Valid()
      reads this, iirState, savedIirState, iirState.Repr, wantCache, wantCache.wantBuyTimestamp
    {
      Separate() && CacheApart() && Sound(AsStream()) && IsGridTime(futureTimestamp)
    }

    // What no speculative computation touches, even for a while.
    ghost function Settled(): (bool, bool, bool, nat, map<int, UpSell>, int, int)
      reads this
    {
      (alive, approachingLimitUp, firstCompute, futureTimestamp, upSellOrders, openPrice, openVolume)
    }

    ghost function Saved(): (nat, Snapshot, nat, IIRState)
      reads this
    {
      (savedNextTickTimestamp, savedCurrSnapshot, oldSnapshotsCount, savedIirState)
    }

    constructor (upperLimitPrice: int, upperLimitPriceApproach: int, preClosePrice: int,
                 model: Model, wantCache: WantCache.Cache)
      requires wantCache.Valid() && WantCache.GridTimes(wantCache.pushes)
      ensures Valid() && fresh(iirState.Repr) && fresh(savedIirState.Repr)
      ensures AsMarket() == Market(true, false, Initial(preClosePrice), map[], preClosePrice, 0)
      ensures this.wantCache == wantCache && this.model == model && this.upperLimitPrice == upperLimitPrice
      ensures this.upperLimitPriceApproach == upperLimitPriceApproach
    {
      this.upperLimitPrice, this.upperLimitPriceApproach := upperLimitPrice, upperLimitPriceApproach;
      this.model, this.wantCache := model, wantCache;
      alive, approachingLimitUp, firstCompute := true, false, false;
      nextTickTimestamp, futureTimestamp := START, START;
      currSnapshot, snapshots := Snapshot(preClosePrice, 0, 0, 0), [];
      savedNextTickTimestamp, savedCurrSnapshot, oldSnapshotsCount := 0, Snapshot(0, 0, 0, 0), 0;
      savingMode := false;
      upSellOrders, openPrice, openVolume := map[], preClosePrice, 0;
      iirState := new IIRState();
      savedIirState := new IIRState();
      new;
      GridZero();
    }

    method StepSnapshot()
      requires iirState.Valid() && this !in iirState.Repr
      modifies `snapshots, `currSnapshot, iirState.Repr
      ensures iirState.Valid() && AsStream() == Close(old(AsStream()))
    {
      iirState.AddVolumeTick(currSnapshot.volume as real);
      snapshots := snapshots + [currSnapshot];
      currSnapshot := currSnapshot.(numTrades := 0);
      currSnapshot := currSnapshot.(volume := 0);
      currSnapshot := currSnapshot.(amount := 0);
    }

    method StepSnapshotUntil(timestamp: nat)
      requires iirState.Valid() && this !in iirState.Repr && OnGrid(AsStream()) && timestamp <= LAST_TIME
      modifies `snapshots, `currSnapshot, `nextTickTimestamp, iirState.Repr
      ensures iirState.Valid() && AsStream() == StepUntil(old(AsStream()), timestamp)
    {
      if timestamp > nextTickTimestamp {
        ghost var start := AsStream();
        NotPastTheLast(start, timestamp);
        StepSnapshot();
        nextTickTimestamp := Advance100ms(nextTickTimestamp);
        assert AsStream() == Stepped(start);
        while timestamp > nextTickTimestamp
          invariant iirState.Valid() && OnGrid(AsStream())
          invariant StepUntil(AsStream(), timestamp) == StepUntil(start, timestamp)
          decreases LAST - |snapshots|
        {
          ghost var before := AsStream();
          NotPastTheLast(before, timestamp);
          StepSnapshot();
          nextTickTimestamp := Advance100ms(nextTickTimestamp);
          assert AsStream() == Stepped(before);
        }
      }
    }

    method AddRealTrade(timestamp: nat, price: int, quantity: int)
      requires iirState.Valid() && this !in iirState.Repr && OnGrid(AsStream()) && timestamp <= LAST_TIME
      modifies `snapshots, `currSnapshot, `nextTickTimestamp, iirState.Repr
      ensures iirState.Valid() && AsStream() == AddTrade(old(AsStream()), Trade(timestamp, price, quantity))
    {
      StepSnapshotUntil(timestamp);
      currSnapshot := currSnapshot.(lastPrice := price);
      currSnapshot := currSnapshot.(numTrades := currSnapshot.numTrades + 1);
      currSnapshot := currSnapshot.(volume := currSnapshot.volume + quantity);
      currSnapshot := currSnapshot.(amount := currSnapshot.amount + price * quantity);
    }

    method FillUpSell(tick: Tick)
      requires iirState.Valid()
      modifies `upSellOrders
      ensures AsMarket() == old(AsMarket()).(upSellOrders := OnFill(old(upSellOrders), tick))
    {
      var id := tick.sellOrderNo;
      if id in upSellOrders {
        upSellOrders := upSellOrders[id := upSellOrders[id].(quantity := upSellOrders[id].quantity - tick.quantity)];
        if upSellOrders[id].quantity <= 0 {
          upSellOrders := upSellOrders - {id};
        }
      }
      assert upSellOrders == OnFill(old(upSellOrders), tick);
    }

    method OnTrade(tick: Tick)
      requires Separate() && OnGrid(AsStream()) && tick.timestamp <= LAST_TIME
      modifies `snapshots, `currSnapshot, `nextTickTimestamp, `upSellOrders, `openPrice, `openVolume
      modifies `approachingLimitUp, iirState.Repr
      ensures Separate() && AsMarket() == OnTradeTick(old(AsMarket()), tick, upperLimitPriceApproach)
    {
      FillUpSell(tick);
      if tick.timestamp < START {
        EarlyTrade(tick);
        return;
      }
      SessionTrade(tick);
    }

    // Before the open a trade sets prices and counts towards the opening volume.
    method EarlyTrade(tick: Tick)
      requires iirState.Valid()
      modifies `currSnapshot, `openPrice, `openVolume
      ensures AsMarket() == old(AsMarket()).(
                stream := old(AsStream()).(current := old(currSnapshot).(lastPrice := tick.price)),
                openPrice := tick.price, openVolume := old(openVolume) + tick.quantity)
    {
      openPrice := tick.price;
      currSnapshot := currSnapshot.(lastPrice := tick.price);
      openVolume := openVolume + tick.quantity;
    }

    method SessionTrade(tick: Tick)
      requires Separate() && OnGrid(AsStream()) && tick.timestamp <= LAST_TIME
      modifies `snapshots, `currSnapshot, `nextTickTimestamp, `approachingLimitUp, iirState.Repr
      ensures Separate()
      ensures AsMarket() == old(AsMarket()).(
                stream := AddTrade(old(AsStream()), AsTrade(tick)),
                approachingLimitUp := old(approachingLimitUp) || tick.price >= upperLimitPriceApproach)
    {
      if tick.price >= upperLimitPriceApproach {
        approachingLimitUp := true;
      }
      AddRealTrade(tick.timestamp, tick.price, tick.quantity);
    }

    // One tick changes exactly what the market's view says.
    method OnTick(tick: Tick)
      requires Separate() && OnGrid(AsStream()) && InDay(tick)
      modifies `snapshots, `currSnapshot, `nextTickTimestamp, `upSellOrders, `openPrice, `openVolume
      modifies `approachingLimitUp, `alive, iirState.Repr
      ensures Separate() && AsMarket() == StockModel.OnTick(old(AsMarket()), tick, upperLimitPriceApproach)
    {
      if !alive {
        return;
      }
      if tick.quantity == 0 {
        alive := false;
        approachingLimitUp := false;
        return;
      }
      if tick.IsOrder() {
        if tick.quantity < 0 {
          if tick.IsSellOrder() && tick.OrderNo() in upSellOrders {
            upSellOrders := upSellOrders - {tick.OrderNo()};
          }
          assert upSellOrders == OnCancel(old(upSellOrders), tick);
        } else {
          upSellOrders := OnOrder(upSellOrders, tick, upperLimitPriceApproach);
        }
      } else if tick.IsTrade() {
        OnTrade(tick);
      }
    }

    method UpSellOrderAmount() returns (amount: int)
      ensures amount == LoadOf(upSellOrders).amount
    {
      amount := 0;
      var rest := upSellOrders;
      while exists id :: id in rest
        invariant amount + LoadOf(rest).amount == LoadOf(upSellOrders).amount
        decreases |rest|
      {
        var id :| id in rest;
        LoadInAnyOrder(rest, id);
        RemoveOne(rest, id);
        amount := amount + rest[id].price * rest[id].quantity;
        rest := rest - {id};
      }
    }

    // ---------- the speculative computation ----------

    method SaveSnapshot()
      requires Separate()
      modifies `savingMode, `savedNextTickTimestamp, `savedCurrSnapshot, `oldSnapshotsCount
      modifies `iirState, `savedIirState, savedIirState.Repr
      ensures iirState == old(savedIirState) && savedIirState == old(iirState)
      ensures Separate() && AsStream() == old(AsStream()) && savedIirState.AsView() == old(iirState.AsView())
      ensures savedNextTickTimestamp == nextTickTimestamp && savedCurrSnapshot == currSnapshot
      ensures oldSnapshotsCount == |snapshots| && savingMode
    {
      savingMode := true;
      savedNextTickTimestamp := nextTickTimestamp;
      savedCurrSnapshot := currSnapshot;
      oldSnapshotsCount := |snapshots|;
      savedIirState.CopyFrom(iirState);
      savedIirState, iirState := iirState, savedIirState;
    }

    method RestoreSnapshot()
      requires oldSnapshotsCount <= |snapshots|
      modifies `savingMode, `nextTickTimestamp, `currSnapshot, `snapshots, `iirState, `savedIirState
      ensures iirState == old(savedIirState) && savedIirState == old(iirState) && !savingMode
      ensures nextTickTimestamp == savedNextTickTimestamp && currSnapshot == savedCurrSnapshot
      ensures snapshots == old(snapshots)[..oldSnapshotsCount]
    {
      savingMode := false;
      nextTickTimestamp := savedNextTickTimestamp;
      currSnapshot := savedCurrSnapshot;
      snapshots := snapshots[..oldSnapshotsCount];
      savedIirState, iirState := iirState, savedIirState;
    }

    // Add every resting order to the open snapshot.
    method TradeRestingOrders()
      modifies `currSnapshot
      ensures currSnapshot == Loaded(old(currSnapshot), LoadOf(upSellOrders))
    {
      ghost var start := currSnapshot;
      var rest := upSellOrders;
      NothingAdded(start, rest);
      while exists id :: id in rest
        invariant PartlyLoaded(currSnapshot, start, rest, upSellOrders)
        decreases |rest|
      {
        rest := AddOne(rest, start);
      }
      AllAdded(currSnapshot, start, rest, upSellOrders);
    }

    // Add one of the orders that are left.
    method AddOne(rest: map<int, UpSell>, ghost start: Snapshot) returns (fewer: map<int, UpSell>)
      requires (exists id :: id in rest) && PartlyLoaded(currSnapshot, start, rest, upSellOrders)
      modifies `currSnapshot
      ensures PartlyLoaded(currSnapshot, start, fewer, upSellOrders) && |fewer| < |rest|
    {
      var id :| id in rest;
      fewer := rest - {id};
      OneAdded(currSnapshot, start, rest, id, upSellOrders);
      AddOrder(rest[id]);
    }

    method AddOrder(sell: UpSell)
      modifies `currSnapshot
      ensures currSnapshot == WithOrder(old(currSnapshot), sell)
    {
      currSnapshot := currSnapshot.(numTrades := currSnapshot.numTrades + 1);
      currSnapshot := currSnapshot.(volume := currSnapshot.volume + sell.quantity);
      currSnapshot := currSnapshot.(amount := currSnapshot.amount + sell.price * sell.quantity);
    }

    method DecideWantBuy() returns (wantBuy: bool)
      requires iirState.Valid() && FilterFollows(AsStream())
      ensures wantBuy == Decides(model, AsStream(), openPrice, openVolume)
    {
      if snapshots == [] {
        return false;
      }
      WindowsNest(Volumes(snapshots));
      var factor := iirState.FinalCompute();
      wantBuy := model(snapshots, factor, openPrice, openVolume);
    }

    // The decision is pushed, and nothing of the market's view has changed.
    method ComputeFutureWantBuy()
      requires Valid()
      modifies this, savedIirState.Repr, wantCache, wantCache.wantBuyTimestamp
      ensures Settled() == old(Settled())
      ensures Valid() && AsMarket() == old(AsMarket())
      ensures iirState == old(iirState) && savedIirState == old(savedIirState)
      ensures wantCache.pushes ==
              old(wantCache.pushes) + [DecisionFor(AsSetup(), old(AsMarket()), old(futureTimestamp))]
    {
      ghost var s := AsStream();
      PushedDecision(AsSetup(), AsDesk());
      GridTimeInDay(futureTimestamp);
      var wantBuy := Speculate();
      Conclude(s, wantBuy);
    }

    // Push the decision and give the saved stream back.
    method Conclude(ghost s: Stream, wantBuy: bool)
      requires Separate() && CacheApart() && savedIirState.AsView() == s.filter && s.snapshots <= snapshots
      requires savedNextTickTimestamp == s.next && savedCurrSnapshot == s.current && oldSnapshotsCount == |s.snapshots|
      requires Linear(futureTimestamp) % 100 == 0
      modifies `savingMode, `nextTickTimestamp, `currSnapshot, `snapshots, `iirState, `savedIirState
      modifies wantCache, wantCache.wantBuyTimestamp
      ensures iirState == old(savedIirState) && savedIirState == old(iirState)
      ensures Separate() && CacheApart() && AsStream() == s
      ensures wantCache.pushes == old(wantCache.pushes) + [WantCache.Decision(Linear(futureTimestamp), wantBuy)]
    {
      PushDecision(wantBuy);
      RollBack(s);
    }

    // Restoring after a speculation gives back the saved stream s.
    method RollBack(ghost s: Stream)
      requires Separate() && CacheApart() && savedIirState.AsView() == s.filter && s.snapshots <= snapshots
      requires savedNextTickTimestamp == s.next && savedCurrSnapshot == s.current && oldSnapshotsCount == |s.snapshots|
      modifies `savingMode, `nextTickTimestamp, `currSnapshot, `snapshots, `iirState, `savedIirState
      ensures iirState == old(savedIirState) && savedIirState == old(iirState)
      ensures Separate() && CacheApart() && AsStream() == s
    {
      RestoreSnapshot();
    }

    method PushDecision(wantBuy: bool)
      requires CacheApart() && Linear(futureTimestamp) % 100 == 0
      modifies wantCache, wantCache.wantBuyTimestamp
      ensures CacheApart()
      ensures wantCache.pushes == old(wantCache.pushes) + [WantCache.Decision(Linear(futureTimestamp), wantBuy)]
    {
      wantCache.PushWantBuyTimestamp(futureTimestamp, wantBuy);
    }

    // Run the stream ahead in place, as if the resting orders had traded.
    method RunAhead()
      requires iirState.Valid() && this !in iirState.Repr && OnGrid(AsStream()) && futureTimestamp <= LAST_TIME
      modifies this, iirState.Repr
      ensures Settled() == old(Settled()) && iirState == old(iirState) && Saved() == old(Saved())
      ensures iirState.Valid()
      ensures AsStream() == Speculated(old(AsStream()), futureTimestamp, LoadOf(upSellOrders), upperLimitPrice)
    {
      ghost var s := AsStream();
      StepSnapshotUntil(futureTimestamp);
      ghost var r := AsStream();
      CloseAtLimit();
      assert AsStream() == Close(r.(
                current := Loaded(r.current, LoadOf(upSellOrders)).(lastPrice := upperLimitPrice)));
      assert r == StepUntil(s, futureTimestamp);
    }

    method CloseAtLimit()
      requires iirState.Valid() && this !in iirState.Repr
      modifies `currSnapshot, `snapshots, iirState.Repr
      ensures iirState.Valid()
      ensures AsStream() == Close(old(AsStream()).(
                current := Loaded(old(currSnapshot), LoadOf(upSellOrders)).(lastPrice := upperLimitPrice)))
    {
      LoadOpenSnapshot();
      StepSnapshot();
    }

    // The resting orders all traded, and the price at the limit.
    method LoadOpenSnapshot()
      requires iirState.Valid()
      modifies `currSnapshot
      ensures AsStream() == old(AsStream()).(
                current := Loaded(old(currSnapshot), LoadOf(upSellOrders)).(lastPrice := upperLimitPrice))
    {
      TradeRestingOrders();
      currSnapshot := currSnapshot.(lastPrice := upperLimitPrice);
    }

    // Save, then run ahead on the copy of the filter.
    method Speculate() returns (wantBuy: bool)
      requires Separate() && Sound(AsStream()) && futureTimestamp <= LAST_TIME
      modifies this, savedIirState.Repr
      ensures Settled() == old(Settled())
      ensures iirState == old(savedIirState) && savedIirState == old(iirState)
      ensures Separate() && savedIirState.AsView() == old(iirState.AsView())
      ensures savedNextTickTimestamp == old(nextTickTimestamp) && savedCurrSnapshot == old(currSnapshot)
      ensures oldSnapshotsCount == |old(snapshots)| && old(snapshots) <= snapshots
      ensures wantBuy == Wanted(model, old(AsMarket()), futureTimestamp, upperLimitPrice)
    {
      ghost var s := AsStream();
      SaveSnapshot();
      RunAhead();
      SpeculatedExtends(s, futureTimestamp, LoadOf(upSellOrders), upperLimitPrice);
      wantBuy := DecideWantBuy();
    }

    method CheckApproach() returns (approaching: bool)
      requires Valid()
      modifies `futureTimestamp, `firstCompute
      ensures Valid() && approaching == approachingLimitUp
      ensures AsDesk() == AfterDeskEvent(AsSetup(), old(AsDesk()), Event.CheckApproach)
    {
      if approachingLimitUp {
        futureTimestamp := nextTickTimestamp;
        firstCompute := true;
        return true;
      }
      return false;
    }

    method ComputeAndAdvance()
      requires Valid()
      modifies this, savedIirState.Repr, wantCache, wantCache.wantBuyTimestamp
      ensures Valid() && AsDesk() == Deliberate(AsSetup(), old(AsDesk()))
      ensures iirState == old(iirState) && savedIirState == old(savedIirState)
    {
      PushedDecision(AsSetup(), AsDesk());
      ComputeFutureWantBuy();
      AdvanceFuture();
    }

    method AdvanceFuture()
      requires Valid()
      modifies `futureTimestamp
      ensures Valid() && AsDesk() == old(AsDesk()).(future := Advance100ms(old(futureTimestamp)))
    {
      AdvanceGridTime(futureTimestamp);
      futureTimestamp := Advance100ms(futureTimestamp);
    }

    method ClearFirstCompute()
      requires Valid()
      modifies `firstCompute
      ensures Valid() && AsDesk() == old(AsDesk()).(first := false)
    {
      firstCompute := false;
    }

    // Decide for the next grid time, and on the first call of an approach for the
    // one after it too, both from the same real stream.
    method OnApproach()
      requires Valid()
      modifies this, savedIirState.Repr, wantCache, wantCache.wantBuyTimestamp
      ensures Valid()
      ensures AsDesk() == if old(approachingLimitUp) then Approach(AsSetup(), old(AsDesk())) else old(AsDesk())
      ensures iirState == old(iirState) && savedIirState == old(savedIirState)
    {
      if approachingLimitUp {
        ComputeWhileApproaching();
      }
    }

    method ComputeWhileApproaching()
      requires Valid()
      modifies this, savedIirState.Repr, wantCache, wantCache.wantBuyTimestamp
      ensures Valid() && AsDesk() == Approach(AsSetup(), old(AsDesk()))
      ensures iirState == old(iirState) && savedIirState == old(savedIirState)
    {
      ComputeAndAdvance();
      ComputeSecond();
    }

    // The first computation of an approach is followed by a second one.
    method ComputeSecond()
      requires Valid()
      modifies this, savedIirState.Repr, wantCache, wantCache.wantBuyTimestamp
      ensures Valid() && iirState == old(iirState) && savedIirState == old(savedIirState)
      ensures AsDesk() == if old(firstCompute) then Deliberate(AsSetup(), old(AsDesk()).(first := false)) else old(AsDesk())
    {
      if firstCompute {
        ClearFirstCompute();
        ComputeAndAdvance();
      }
    }

    method HandleTick(tick: Tick)
      requires Valid() && InDay(tick)
      modifies `snapshots, `currSnapshot, `nextTickTimestamp, `upSellOrders, `openPrice, `openVolume
      modifies `approachingLimitUp, `alive, iirState.Repr
      ensures Valid()
      ensures AsDesk() ==
              old(AsDesk()).(market := StockModel.OnTick(old(AsMarket()), tick, upperLimitPriceApproach))
    {
      TickFeedsFilter(AsMarket(), tick, upperLimitPriceApproach);
      OnTick(tick);
    }

    method ClearApproach()
      requires Valid()
      modifies `approachingLimitUp
      ensures Valid() && AsDesk() == old(AsDesk()).(market := old(AsMarket()).(approachingLimitUp := false))
    {
      approachingLimitUp := false;
    }

    method Handle(e: Event)
      requires Valid() && (e.Arrival? ==> InDay(e.tick))
      modifies this, iirState.Repr, savedIirState.Repr, wantCache, wantCache.wantBuyTimestamp
      ensures Valid() && AsDesk() == AfterDeskEvent(AsSetup(), old(AsDesk()), e)
      ensures iirState == old(iirState) && savedIirState == old(savedIirState)
    {
      match e
      case Arrival(tick) => HandleTick(tick);
      case ClearApproach => ClearApproach();
      case CheckApproach => var _ := CheckApproach();
      case OnApproach => OnApproach();
    }

    // A whole run of ticks and speculation: the market's view is what the events
    // alone tell, the same without the speculative ones, and the decisions pushed
    // are the ones made from the real market at each speculative call.
    method HandleAll(events: seq<Event>)
      requires Valid() && AllInDay(events)
      modifies this, iirState.Repr, savedIirState.Repr, wantCache, wantCache.wantBuyTimestamp
      ensures Valid() && AsDesk() == AfterDeskEvents(AsSetup(), old(AsDesk()), events)
      ensures AsMarket() == AfterEvents(old(AsMarket()), events, upperLimitPriceApproach)
      ensures AsMarket() == AfterEvents(old(AsMarket()), WithoutSpeculation(events), upperLimitPriceApproach)
    {
      ghost var m := AsMarket();
      HandleEvents(events);
      SpeculationHasNoEffect(m, events, upperLimitPriceApproach);
    }

    method HandleEvents(events: seq<Event>)
      requires Valid() && AllInDay(events)
      modifies this, iirState.Repr, savedIirState.Repr, wantCache, wantCache.wantBuyTimestamp
      ensures Valid() && AsDesk() == AfterDeskEvents(AsSetup(), old(AsDesk()), events)
    {
      ghost var d := AsDesk();
      for i := 0 to |events|
        invariant Valid() && iirState == old(iirState) && savedIirState == old(savedIirState)
        invariant AllInDay(events[..i])
        invariant AsDesk() == AfterDeskEvents(AsSetup(), d, events[..i])
      {
        NextDesk(AsSetup(), d, events, i);
        Handle(events[i]);
      }
      assert events[..|events|] == events;
    }
  }

  lemma NotPastTheLast(s: Stream, t: nat)
    requires OnGrid(s) && s.next < t <= LAST_TIME
    ensures |s.snapshots| < LAST
  {
    GridIncreases(LAST);
  }
}
