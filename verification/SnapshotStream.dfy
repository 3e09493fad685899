// The 100 ms snapshots of a stock's trades, as a fold over the trades, and the
// offline bucketing it must agree with.
module SnapshotStream {
  import opened Arith
  import opened Timestamp
  import opened IIRFilter

  datatype Snapshot = Snapshot(lastPrice: int, numTrades: nat, volume: int, amount: int)

  datatype Trade = Trade(timestamp: nat, price: int, quantity: int)

  // The open snapshot, the closed ones and the filter fed by their volumes.
  datatype Stream = Stream(next: nat, current: Snapshot, snapshots: seq<Snapshot>, filter: View)

  const START: nat := 9_30_00_000
  const LAST_TIME: nat := 23_59_59_900

  // Snapshot number |snapshots| is open until the grid point of that number.
  ghost predicate OnGrid(s: Stream) {
    |s.snapshots| <= LAST && s.next == Grid(|s.snapshots|) && Shaped(s.filter)
  }

  function Emptied(x: Snapshot): Snapshot {
    Snapshot(x.lastPrice, 0, 0, 0)
  }

  function Counted(x: Snapshot, price: int, quantity: int): Snapshot {
    Snapshot(price, x.numTrades + 1, x.volume + quantity, x.amount + price * quantity)
  }

  // Close the open snapshot.
  function Close(s: Stream): (r: Stream)
    requires Shaped(s.filter)
    ensures Shaped(r.filter)
  {
    Stream(s.next, Emptied(s.current), s.snapshots + [s.current], Tick(s.filter, s.current.volume as real))
  }

  // Close the open snapshot and advance to the next grid point.
  function Stepped(s: Stream): (r: Stream)
    requires OnGrid(s) && |s.snapshots| < LAST
    ensures OnGrid(r) && |r.snapshots| == |s.snapshots| + 1
  {
    GridAdvances(|s.snapshots|);
    Close(s).(next := Advance100ms(s.next))
  }

  // Close snapshots until time t falls into the open one.
  function StepUntil(s: Stream, t: nat): (r: Stream)
    requires OnGrid(s) && t <= LAST_TIME
    ensures OnGrid(r) && t <= r.next
    decreases LAST - |s.snapshots|
  {
    GridIncreases(LAST);
    if t > s.next then StepUntil(Stepped(s), t) else s
  }

  function AddTrade(s: Stream, x: Trade): (r: Stream)
    requires OnGrid(s) && x.timestamp <= LAST_TIME
    ensures OnGrid(r)
  {
    var r := StepUntil(s, x.timestamp);
    r.(current := Counted(r.current, x.price, x.quantity))
  }

  // A trade of the day: before the open it only sets the price.
  function OnTrade(s: Stream, x: Trade): (r: Stream)
    requires OnGrid(s) && x.timestamp <= LAST_TIME
    ensures OnGrid(r)
  {
    if x.timestamp < START then s.(current := s.current.(lastPrice := x.price)) else AddTrade(s, x)
  }

  function Initial(price: int): (r: Stream)
    ensures OnGrid(r)
  {
    GridPoint(0);
    GridZero();
    Stream(START, Snapshot(price, 0, 0, 0), [], Zero())
  }

  lemma GridZero()
    ensures Grid(0) == START
  {
    DelinearParts(9, 30, 0, 0);
    assert OPEN == (9 * 3600 + 30 * 60 + 0) * 1000 + 0;
  }

  // A time the 100 ms grid can reach.
  ghost predicate IsGridTime(t: nat) {
    exists i :: MIDNIGHT <= i <= LAST && t == Grid(i)
  }

  lemma GridTimeInDay(t: nat)
    requires IsGridTime(t)
    ensures t <= LAST_TIME && Linear(t) % 100 == 0
  {
    var i :| MIDNIGHT <= i <= LAST && t == Grid(i);
    GridPoint(i);
    PastGridPoint(t, LAST);
    GridIncreases(LAST);
    Even(i);
  }

  lemma Even(i: int)
    ensures GridLinear(i) % 100 == 0
  {
    var k := 342_000 + i + if 100 * i > MORNING then 53_999 else 0;
    DivModUnique(GridLinear(i), 100, k, 0);
  }

  lemma AdvanceGridTime(t: nat)
    requires IsGridTime(t)
    ensures IsGridTime(Advance100ms(t))
  {
    var i :| MIDNIGHT <= i <= LAST && t == Grid(i);
    GridAdvances(i);
    GridIncreases(i);
    var j := if i < LAST then i + 1 else MIDNIGHT;
    assert Advance100ms(t) == Grid(j);
  }

  // The whole day's trades may be streamed.
  ghost predicate Times(trades: seq<Trade>) {
    forall k :: 0 <= k < |trades| ==> trades[k].timestamp <= LAST_TIME
  }

  function Streamed(price: int, trades: seq<Trade>): (r: Stream)
    requires Times(trades)
    ensures OnGrid(r)
  {
    if trades == [] then Initial(price) else OnTrade(Streamed(price, Init(trades)), Last(trades))
  }

  function Init<T>(s: seq<T>): (r: seq<T>)
    requires s != []
    ensures |r| == |s| - 1
  {
    s[..|s| - 1]
  }

  function Last<T>(s: seq<T>): T
    requires s != []
  {
    s[|s| - 1]
  }

  // ---------- the offline reference ----------

  // Snapshot i straight from the trades: count, volume and amount of the trades
  // of the session in bucket i, and the price of the last trade up to bucket i.
  function Offline(price: int, trades: seq<Trade>, i: nat): Snapshot {
    if trades == [] then Snapshot(price, 0, 0, 0)
    else
      var r, x := Offline(price, Init(trades), i), Last(trades);
      if Bucket(x.timestamp) > i then r
      else if x.timestamp < START || Bucket(x.timestamp) < i then r.(lastPrice := x.price)
      else Counted(r, x.price, x.quantity)
  }

  // The bucket the open snapshot has reached.
  function Reached(trades: seq<Trade>): nat {
    if trades == [] then 0 else Bucket(Last(trades).timestamp)
  }

  function LastPrice(price: int, trades: seq<Trade>): int {
    if trades == [] then price else Last(trades).price
  }

  // Valid clock times in order.
  ghost predicate Ordered(trades: seq<Trade>) {
    && (forall k :: 0 <= k < |trades| ==> IsTime(trades[k].timestamp))
    && (forall j, k :: 0 <= j < k < |trades| ==> trades[j].timestamp <= trades[k].timestamp)
  }

  function Volumes(snapshots: seq<Snapshot>): (r: seq<real>)
    ensures |r| == |snapshots| && forall k :: 0 <= k < |r| ==> r[k] == snapshots[k].volume as real
  {
    seq(|snapshots|, k requires 0 <= k < |snapshots| => snapshots[k].volume as real)
  }

  // The stream holds exactly the offline snapshots.
  ghost predicate Buckets(s: Stream, price: int, trades: seq<Trade>) {
    && |s.snapshots| == Reached(trades)
    && s.current == Offline(price, trades, |s.snapshots|)
    && (forall i :: 0 <= i < |s.snapshots| ==> s.snapshots[i] == Offline(price, trades, i))
  }

  lemma TakePrefix(trades: seq<Trade>)
    requires trades != [] && Ordered(trades)
    ensures Ordered(Init(trades)) && Reached(Init(trades)) <= Reached(trades)
    ensures Times(trades) ==> Times(Init(trades))
  {
    var n := |trades|;
    if n > 1 { BucketMonotone(trades[n - 2].timestamp, trades[n - 1].timestamp); }
  }

  // Beyond the last trade's bucket only the price is left.
  lemma {:induction false} OfflineBeyond(price: int, trades: seq<Trade>, i: nat)
    requires Ordered(trades) && Reached(trades) <= i
    ensures Offline(price, trades, i).lastPrice == LastPrice(price, trades)
    ensures Reached(trades) < i ==> Offline(price, trades, i) == Snapshot(LastPrice(price, trades), 0, 0, 0)
  {
    if trades != [] {
      TakePrefix(trades);
      OfflineBeyond(price, Init(trades), i);
    }
  }

  // r closes what s leaves open up to bucket b: first the open snapshot, then
  // empty ones.
  ghost predicate CaughtUp(s: Stream, r: Stream, b: nat) {
    var n := |s.snapshots|;
    && |r.snapshots| == (if b < n then n else b)
    && (forall i :: 0 <= i < n ==> r.snapshots[i] == s.snapshots[i])
    && (forall i :: n <= i < b ==> r.snapshots[i] == if i == n then s.current else Emptied(s.current))
    && r.current == if n < b then Emptied(s.current) else s.current
  }

  lemma {:induction false} StepUntilCatchesUp(s: Stream, t: nat)
    requires OnGrid(s) && IsTime(t) && t <= LAST_TIME
    ensures CaughtUp(s, StepUntil(s, t), Bucket(t))
    decreases LAST - |s.snapshots|
  {
    BucketMeaning(t, |s.snapshots|);
    if t > s.next {
      GridIncreases(LAST);
      StepUntilCatchesUp(Stepped(s), t);
      StepThenCatchUp(s, Stepped(s), StepUntil(s, t), Bucket(t));
    }
  }

  lemma StepThenCatchUp(s: Stream, m: Stream, r: Stream, b: nat)
    requires m.snapshots == s.snapshots + [s.current] && m.current == Emptied(s.current)
    requires CaughtUp(m, r, b) && |s.snapshots| < b
    ensures CaughtUp(s, r, b)
  {
    forall i | 0 <= i < |s.snapshots|
      ensures r.snapshots[i] == s.snapshots[i]
    {
      assert r.snapshots[i] == m.snapshots[i];
    }
    assert r.snapshots[|s.snapshots|] == m.snapshots[|s.snapshots|];
  }

  // Catching up leaves exactly the offline snapshots up to the new bucket.
  lemma CatchUpKeepsBuckets(s: Stream, r: Stream, price: int, trades: seq<Trade>, b: nat)
    requires Ordered(trades) && Buckets(s, price, trades) && CaughtUp(s, r, b) && Reached(trades) <= b
    ensures r.current == Offline(price, trades, b)
    ensures forall i :: 0 <= i < b ==> r.snapshots[i] == Offline(price, trades, i)
  {
    var n := |s.snapshots|;
    OfflineBeyond(price, trades, n);
    OfflineBeyond(price, trades, b);
    forall i | 0 <= i < b
      ensures r.snapshots[i] == Offline(price, trades, i)
    {
      if n <= i { OfflineBeyond(price, trades, i); }
    }
  }

  // Streaming equals offline bucketing.
  lemma {:induction false} StreamingIsBucketing(price: int, trades: seq<Trade>)
    requires Ordered(trades) && Times(trades)
    ensures Buckets(Streamed(price, trades), price, trades)
  {
    if trades != [] {
      var before, x := Init(trades), Last(trades);
      var b := Bucket(x.timestamp);
      TakePrefix(trades);
      StreamingIsBucketing(price, before);
      var s := Streamed(price, before);
      if x.timestamp < START {
        EarlyBucket(x.timestamp);
      } else {
        var r := StepUntil(s, x.timestamp);
        StepUntilCatchesUp(s, x.timestamp);
        CatchUpKeepsBuckets(s, r, price, before, b);
      }
    }
  }

  lemma EarlyBucket(t: nat)
    requires IsTime(t) && t < START
    ensures Bucket(t) == 0
  {
    GridZero();
    BucketMeaning(t, 0);
  }

  // The filter is always the one fed with the volumes of the closed snapshots.
  ghost predicate FilterFollows(s: Stream) {
    s.filter == Filtered(Volumes(s.snapshots))
  }

  lemma CloseFeedsFilter(s: Stream)
    requires FilterFollows(s) && Shaped(s.filter)
    ensures FilterFollows(Close(s))
  {
    var v := Volumes(Close(s).snapshots);
    assert v[..|v| - 1] == Volumes(s.snapshots);
  }

  lemma {:induction false} StepUntilFeedsFilter(s: Stream, t: nat)
    requires OnGrid(s) && t <= LAST_TIME && FilterFollows(s)
    ensures FilterFollows(StepUntil(s, t))
    decreases LAST - |s.snapshots|
  {
    if t > s.next {
      GridIncreases(LAST);
      CloseFeedsFilter(s);
      StepUntilFeedsFilter(Stepped(s), t);
    }
  }

  lemma {:induction false} StreamFeedsFilter(price: int, trades: seq<Trade>)
    requires Times(trades)
    ensures FilterFollows(Streamed(price, trades))
  {
    if trades != [] {
      StreamFeedsFilter(price, Init(trades));
      if Last(trades).timestamp >= START {
        StepUntilFeedsFilter(Streamed(price, Init(trades)), Last(trades).timestamp);
      }
    }
  }

  // ---------- totals ----------

  datatype Totals = Totals(count: int, volume: int, amount: int)

  function Plus(a: Totals, x: Snapshot): Totals {
    Totals(a.count + x.numTrades, a.volume + x.volume, a.amount + x.amount)
  }

  function SnapshotTotals(snapshots: seq<Snapshot>): Totals {
    if snapshots == [] then Totals(0, 0, 0) else Plus(SnapshotTotals(Init(snapshots)), Last(snapshots))
  }

  // Everything the stream has accounted for.
  function StreamTotals(s: Stream): Totals {
    Plus(SnapshotTotals(s.snapshots), s.current)
  }

  function TradeTotals(trades: seq<Trade>): Totals {
    if trades == [] then Totals(0, 0, 0)
    else
      var a, x := TradeTotals(Init(trades)), Last(trades);
      if x.timestamp < START then a
      else Totals(a.count + 1, a.volume + x.quantity, a.amount + x.price * x.quantity)
  }

  lemma {:induction false} StepUntilKeepsTotals(s: Stream, t: nat)
    requires OnGrid(s) && t <= LAST_TIME
    ensures StreamTotals(StepUntil(s, t)) == StreamTotals(s)
    decreases LAST - |s.snapshots|
  {
    if t > s.next {
      GridIncreases(LAST);
      assert Init(Stepped(s).snapshots) == s.snapshots;
      StepUntilKeepsTotals(Stepped(s), t);
    }
  }

  lemma CountedTotals(a: Totals, x: Snapshot, price: int, quantity: int, value: int)
    requires value == price * quantity
    ensures var p := Plus(a, x);
            Plus(a, Counted(x, price, quantity)) == Totals(p.count + 1, p.volume + quantity, p.amount + value)
  {
  }

  // No trade of the session is lost or counted twice, in any order of times.
  lemma {:induction false} TotalsAreConserved(price: int, trades: seq<Trade>)
    requires Times(trades)
    ensures StreamTotals(Streamed(price, trades)) == TradeTotals(trades)
  {
    if trades != [] {
      TotalsAreConserved(price, Init(trades));
      var s, x := Streamed(price, Init(trades)), Last(trades);
      if x.timestamp >= START {
        var r := StepUntil(s, x.timestamp);
        StepUntilKeepsTotals(s, x.timestamp);
        CountedTotals(SnapshotTotals(r.snapshots), r.current, x.price, x.quantity, x.price * x.quantity);
      }
    }
  }

  // ---------- the indicators of a day ----------

  // The indicators computed from a day of trades stay in their ranges, and the
  // filter they come from is the one fed with the offline volumes.
  lemma DayIndicatorsInRange(price: int, trades: seq<Trade>)
    requires Times(trades)
    ensures var s := Streamed(price, trades);
            && s.filter.diffEnergy >= 0.0 && s.filter.diff500.sum >= 0.0
            && (Report(s.filter).top20.Val? <==> |s.snapshots| >= 10)
            && InRange(Report(s.filter).top20, 0.0, 1.0) && InRange(Report(s.filter).bottom20, 0.0, 1.0)
            && InRange(Report(s.filter).last500Bottom20, 0.0, 1.0)
  {
    StreamFeedsFilter(price, trades);
    ReportInRange(Volumes(Streamed(price, trades).snapshots));
  }
}
