// The opening call auction of an order book: quantities per price in the limit
// band, and the search for the price that opens the day.
module OrderBook {

  // ---------- the auction as a specification ----------

  // Prices are positions in the band, 0 the lower limit.
  function SumTo(q: seq<int>, k: nat): int
    requires k <= |q|
  {
    if k == 0 then 0 else SumTo(q, k - 1) + q[k - 1]
  }

  function SumFrom(q: seq<int>, k: nat): int
    requires k <= |q|
    decreases |q| - k
  {
    if k == |q| then 0 else q[k] + SumFrom(q, k + 1)
  }

  // What sellers would sell, and buyers buy, at price p.
  function Supply(ask: seq<int>, p: nat): int
    requires p < |ask|
  {
    SumTo(ask, p + 1)
  }

  function Demand(bid: seq<int>, p: nat): int
    requires p < |bid|
  {
    SumFrom(bid, p)
  }

  function Min(a: int, b: int): int {
    if b < a then b else a
  }

  function Abs(a: int): nat {
    if a < 0 then -a else a
  }

  function Matched(bid: seq<int>, ask: seq<int>, p: nat): int
    requires p < |bid| == |ask|
  {
    Min(Supply(ask, p), Demand(bid, p))
  }

  function Imbalance(bid: seq<int>, ask: seq<int>, p: nat): int
    requires p < |bid| == |ask|
  {
    Demand(bid, p) - Supply(ask, p)
  }

  // Among equally good prices: the highest up to the reference, else the lowest.
  predicate Nearer(reference: int, p: int, q: int) {
    if p <= reference then q <= p || q > reference else p <= q
  }

  // p is at least as good as q: it matches more; or as much with less imbalance;
  // or both alike and it is nearer the reference.
  predicate AsGood(bid: seq<int>, ask: seq<int>, reference: int, p: nat, q: nat)
    requires p < |bid| == |ask| && q < |bid|
  {
    var mp, mq := Matched(bid, ask, p), Matched(bid, ask, q);
    var ip, iq := Abs(Imbalance(bid, ask, p)), Abs(Imbalance(bid, ask, q));
    mp > mq || (mp == mq && (ip < iq || (ip == iq && Nearer(reference, p, q))))
  }

  // p is as good as every price below n.
  ghost predicate BestBelow(bid: seq<int>, ask: seq<int>, reference: int, p: nat, n: nat)
    requires |bid| == |ask| && n <= |bid|
  {
    p < n && forall q: nat :: q < n ==> AsGood(bid, ask, reference, p, q)
  }

  ghost predicate IsOpening(bid: seq<int>, ask: seq<int>, reference: int, p: nat)
    requires |bid| == |ask|
  {
    BestBelow(bid, ask, reference, p, |bid|)
  }

  // The three criteria decide the price.
  lemma OpeningIsUnique(bid: seq<int>, ask: seq<int>, reference: int, p: nat, p': nat)
    requires |bid| == |ask|
    requires IsOpening(bid, ask, reference, p) && IsOpening(bid, ask, reference, p')
    ensures p == p'
  {
    assert AsGood(bid, ask, reference, p, p') && AsGood(bid, ask, reference, p', p);
  }

  // What an opening price maximises, and how ties were decided; i and j are what buyers
  // demand beyond the supply at either price.
  lemma OpeningMaximises(bid: seq<int>, ask: seq<int>, reference: int, p: nat, q: nat, i: int, j: int)
    requires |bid| == |ask| && q < |bid| && IsOpening(bid, ask, reference, p)
    requires i == Demand(bid, p) - Supply(ask, p) && j == Demand(bid, q) - Supply(ask, q)
    ensures Matched(bid, ask, q) <= Matched(bid, ask, p)
    ensures Matched(bid, ask, q) == Matched(bid, ask, p) ==> if j >= 0 then -j <= i <= j else j <= i <= -j
    ensures Matched(bid, ask, q) == Matched(bid, ask, p) && (i == j || i == -j) && q != p ==>
              (q <= reference ==> q < p <= reference) && (reference < q ==> p < q)
  {
    assert AsGood(bid, ask, reference, p, q);
  }

  // Preference is transitive.
  lemma AsGoodTransitive(bid: seq<int>, ask: seq<int>, reference: int, p: nat, q: nat, r: nat)
    requires |bid| == |ask| && p < |bid| && q < |bid| && r < |bid|
    requires AsGood(bid, ask, reference, p, q) && AsGood(bid, ask, reference, q, r)
    ensures AsGood(bid, ask, reference, p, r)
  {
  }

  lemma BestExtends(bid: seq<int>, ask: seq<int>, reference: int, p: nat, best: nat, n: nat)
    requires |bid| == |ask| && n < |bid| && BestBelow(bid, ask, reference, best, n)
    requires p == best || p == n
    requires AsGood(bid, ask, reference, p, best) && AsGood(bid, ask, reference, p, n)
    ensures BestBelow(bid, ask, reference, p, n + 1)
  {
    forall q: nat | q < n + 1
      ensures AsGood(bid, ask, reference, p, q)
    {
      if q < n { AsGoodTransitive(bid, ask, reference, p, best, q); }
    }
  }

  // ---------- non-negative books ----------

  ghost predicate NonNegative(q: seq<int>) {
    forall k :: 0 <= k < |q| ==> q[k] >= 0
  }

  lemma {:induction false} SumToMonotone(q: seq<int>, i: nat, j: nat)
    requires NonNegative(q) && i <= j <= |q|
    ensures SumTo(q, i) <= SumTo(q, j)
  {
    if i < j { SumToMonotone(q, i, j - 1); }
  }

  lemma {:induction false} SumFromMonotone(q: seq<int>, i: nat, j: nat)
    requires NonNegative(q) && i <= j <= |q|
    ensures SumFrom(q, j) <= SumFrom(q, i)
    decreases j - i
  {
    if i < j { SumFromMonotone(q, i + 1, j); }
  }

  lemma {:induction false} SumsMeet(q: seq<int>, k: nat)
    requires k <= |q|
    ensures SumTo(q, k) + SumFrom(q, k) == SumFrom(q, 0)
  {
    if k > 0 { SumsMeet(q, k - 1); }
  }

  // Supply rises and demand falls with the price, within the totals.
  lemma MatchedBounds(bid: seq<int>, ask: seq<int>, p: nat)
    requires |bid| == |ask| && p < |bid| && NonNegative(bid) && NonNegative(ask)
    ensures 0 <= Matched(bid, ask, p) <= Min(SumTo(ask, |ask|), SumTo(bid, |bid|))
  {
    SumToMonotone(ask, 0, p + 1);
    SumToMonotone(ask, p + 1, |ask|);
    SumFromMonotone(bid, 0, p);
    SumFromMonotone(bid, p, |bid|);
    SumsMeet(bid, |bid|);
  }

  lemma {:induction false} PositiveSumTo(q: seq<int>, k: nat) returns (i: nat)
    requires k <= |q| && SumTo(q, k) > 0
    ensures i < k && q[i] > 0
  {
    if q[k - 1] > 0 { i := k - 1; } else { i := PositiveSumTo(q, k - 1); }
  }

  lemma {:induction false} PositiveSumFrom(q: seq<int>, k: nat) returns (i: nat)
    requires k <= |q| && SumFrom(q, k) > 0
    ensures k <= i < |q| && q[i] > 0
    decreases |q| - k
  {
    if q[k] > 0 { i := k; } else { i := PositiveSumFrom(q, k + 1); }
  }

  // Some quantity is matched exactly when a bid crosses an ask.
  lemma MatchedIffCrossed(bid: seq<int>, ask: seq<int>)
    requires |bid| == |ask| && NonNegative(bid) && NonNegative(ask)
    ensures (exists p: nat :: p < |bid| && Matched(bid, ask, p) > 0) <==>
            (exists a, b :: 0 <= a <= b < |bid| && ask[a] > 0 && bid[b] > 0)
  {
    if p: nat :| p < |bid| && Matched(bid, ask, p) > 0 {
      var a := PositiveSumTo(ask, p + 1);
      var b := PositiveSumFrom(bid, p);
      assert a <= b;
    }
    if a, b :| 0 <= a <= b < |bid| && ask[a] > 0 && bid[b] > 0 {
      SumToMonotone(ask, 0, a);
      SumFromMonotone(bid, b + 1, |bid|);
      SumFromMonotone(bid, a, b);
      assert Matched(bid, ask, a) > 0;
    }
  }

  // ---------- the book ----------

  datatype Level = Level(price: int, quantity: int)

  // A snapshot with the price levels that are set.
  datatype Snap = Snap(timestamp: int, preClosePrice: int, numTrades: int, volume: int, amount: int, lastPrice: int,
                       bids: seq<Level>, asks: seq<Level>)

  // The result of the auction: price, matched quantity, imbalance.
  datatype Opening = Opening(price: int, matched: int, unmatched: int)

  class Book {
    const bidQty: array<int>
    const askQty: array<int>
    const preClosePrice: int
    const lowerLimitPrice: int
    var snapshots: seq<Snap>
    var virtOpenPrice: int
    var virtOpenMatchedQty: int
    var virtOpenUnmatchedQty: int
    var virtOpenBidRemainQty: int
    var virtOpenAskRemainQty: int
    var numTrades: int
    var volume: int
    var amount: int
    var lastPrice: int

    // The band from the lower to the upper limit price.
    constructor (preClosePrice: int, lowerLimitPrice: int, upperLimitPrice: int)
      requires lowerLimitPrice <= upperLimitPrice + 1
      ensures bidQty.Length == askQty.Length == upperLimitPrice - lowerLimitPrice + 1
      ensures fresh(bidQty) && fresh(askQty) && bidQty != askQty
      ensures this.preClosePrice == preClosePrice && this.lowerLimitPrice == lowerLimitPrice
      ensures snapshots == []
    {
      this.preClosePrice, this.lowerLimitPrice := preClosePrice, lowerLimitPrice;
      bidQty := new int[upperLimitPrice - lowerLimitPrice + 1](_ => 0);
      askQty := new int[upperLimitPrice - lowerLimitPrice + 1](_ => 0);
      snapshots := [];
      virtOpenPrice, virtOpenMatchedQty, virtOpenUnmatchedQty := preClosePrice, 0, 0;
      virtOpenBidRemainQty, virtOpenAskRemainQty := 0, 0;
      numTrades, volume, amount, lastPrice := 0, 0, 0, 0;
    }

    // Cumulative quantities, asks upwards and bids downwards.
    method Accumulate() returns (askQtyAccum: array<int>, bidQtyAccum: array<int>, askQtySum: int, bidQtySum: int)
      requires bidQty.Length == askQty.Length
      ensures askQtyAccum.Length == bidQtyAccum.Length == bidQty.Length
      ensures forall p :: 0 <= p < bidQty.Length ==> askQtyAccum[p] == Supply(askQty[..], p)
      ensures forall p :: 0 <= p < bidQty.Length ==> bidQtyAccum[p] == Demand(bidQty[..], p)
      ensures askQtySum == SumTo(askQty[..], askQty.Length) && bidQtySum == SumTo(bidQty[..], bidQty.Length)
    {
      var n := bidQty.Length;
      ghost var bid, ask := bidQty[..], askQty[..];
      askQtyAccum, bidQtyAccum, askQtySum, bidQtySum := new int[n], new int[n], 0, 0;
      for p := 0 to n
        invariant askQtySum == SumTo(ask, p)
        invariant forall k :: 0 <= k < p ==> askQtyAccum[k] == Supply(ask, k)
        modifies askQtyAccum
      {
        askQtySum := askQtySum + askQty[p];
        askQtyAccum[p] := askQtySum;
      }
      for p := n downto 0
        invariant bidQtySum == SumFrom(bid, p)
        invariant forall k :: p <= k < n ==> bidQtyAccum[k] == Demand(bid, k)
        modifies bidQtyAccum
      {
        bidQtySum := bidQtySum + bidQty[p];
        bidQtyAccum[p] := bidQtySum;
      }
      SumsMeet(bid, n);
    }

    // The best price of the band, or the previous close when nothing matches.
    ghost predicate IsResult(bid: seq<int>, ask: seq<int>, o: Opening)
      requires |bid| == |ask|
    {
      var reference := preClosePrice - lowerLimitPrice;
      if exists p: nat :: p < |bid| && Matched(bid, ask, p) > 0 then
        var p := o.price - lowerLimitPrice;
        && 0 <= p < |bid| && IsOpening(bid, ask, reference, p)
        && o.matched == Matched(bid, ask, p) > 0 && o.unmatched == Demand(bid, p) - Supply(ask, p)
      else o == Opening(preClosePrice, 0, 0)
    }

    // The running best of the search over the prices below p.
    ghost predicate Running(bid: seq<int>, ask: seq<int>, n: nat, maxQ: int, maxI: int, maxISigned: int, maxP: nat)
      requires |bid| == |ask| && n <= |bid|
    {
      && maxQ >= 0 && maxI == Abs(maxISigned)
      && if maxQ == 0 then maxISigned == 0 && forall q: nat :: q < n ==> Matched(bid, ask, q) <= 0
         else BestBelow(bid, ask, preClosePrice - lowerLimitPrice, maxP, n) &&
              maxQ == Matched(bid, ask, maxP) && maxISigned == Imbalance(bid, ask, maxP)
    }

    method Search(askQtyAccum: array<int>, bidQtyAccum: array<int>, ghost bid: seq<int>, ghost ask: seq<int>)
      returns (o: Opening)
      requires |bid| == |ask| == askQtyAccum.Length == bidQtyAccum.Length
      requires forall p :: 0 <= p < |ask| ==> askQtyAccum[p] == Supply(ask, p)
      requires forall p :: 0 <= p < |bid| ==> bidQtyAccum[p] == Demand(bid, p)
      ensures IsResult(bid, ask, o)
    {
      var maxQ, maxI, maxISigned, maxP := 0, 0, 0, 0;
      for p := 0 to askQtyAccum.Length
        invariant maxP >= 0 && Running(bid, ask, p, maxQ, maxI, maxISigned, maxP)
      {
        var transaction := Min(askQtyAccum[p], bidQtyAccum[p]);
        var imbalanceSigned := bidQtyAccum[p] - askQtyAccum[p];
        var imbalance := Abs(imbalanceSigned);
        ghost var best, had := maxP, maxQ;
        if transaction > maxQ || (transaction == maxQ &&
           (if p <= preClosePrice - lowerLimitPrice then imbalance <= maxI else imbalance < maxI)) {
          maxQ, maxI, maxISigned, maxP := transaction, imbalance, imbalanceSigned, p;
        }
        RunningStep(bid, ask, p, had, best, maxQ, maxP);
      }
      if maxQ != 0 {
        o := Opening(maxP + lowerLimitPrice, maxQ, maxISigned);
      } else {
        o := Opening(preClosePrice, 0, 0);
      }
    }

    lemma RunningStep(bid: seq<int>, ask: seq<int>, p: nat, had: int, best: nat, maxQ: int, maxP: nat)
      requires |bid| == |ask| && p < |bid| && maxQ >= had >= 0
      requires if had == 0 then forall q: nat :: q < p ==> Matched(bid, ask, q) <= 0
               else BestBelow(bid, ask, preClosePrice - lowerLimitPrice, best, p) && had == Matched(bid, ask, best)
      requires maxQ == had == 0 ==> Matched(bid, ask, p) <= 0
      requires maxQ > 0 == had ==> maxP == p && maxQ == Matched(bid, ask, p)
      requires had > 0 ==> (maxP == best || maxP == p) &&
                           AsGood(bid, ask, preClosePrice - lowerLimitPrice, maxP, best) &&
                           AsGood(bid, ask, preClosePrice - lowerLimitPrice, maxP, p)
      ensures maxQ == 0 ==> forall q: nat :: q < p + 1 ==> Matched(bid, ask, q) <= 0
      ensures maxQ > 0 ==> BestBelow(bid, ask, preClosePrice - lowerLimitPrice, maxP, p + 1)
    {
      if had > 0 { BestExtends(bid, ask, preClosePrice - lowerLimitPrice, maxP, best, p); }
    }

    // Set the virtual opening and what both sides have left, which is never
    // negative for non-negative books.
    method Auction() returns (o: Opening)
      requires bidQty.Length == askQty.Length
      modifies `virtOpenPrice, `virtOpenMatchedQty, `virtOpenUnmatchedQty, `virtOpenBidRemainQty, `virtOpenAskRemainQty
      ensures IsResult(bidQty[..], askQty[..], o)
      ensures o == Opening(virtOpenPrice, virtOpenMatchedQty, virtOpenUnmatchedQty)
      ensures virtOpenAskRemainQty == SumTo(askQty[..], askQty.Length) - virtOpenMatchedQty
      ensures virtOpenBidRemainQty == SumTo(bidQty[..], bidQty.Length) - virtOpenMatchedQty
      ensures NonNegative(bidQty[..]) && NonNegative(askQty[..]) ==> virtOpenAskRemainQty >= 0 && virtOpenBidRemainQty >= 0
    {
      var askQtyAccum, bidQtyAccum, askQtySum, bidQtySum := Accumulate();
      o := Search(askQtyAccum, bidQtyAccum, bidQty[..], askQty[..]);
      virtOpenPrice, virtOpenMatchedQty, virtOpenUnmatchedQty := o.price, o.matched, o.unmatched;
      virtOpenAskRemainQty := askQtySum - virtOpenMatchedQty;
      virtOpenBidRemainQty := bidQtySum - virtOpenMatchedQty;
      if NonNegative(bidQty[..]) && NonNegative(askQty[..]) { RemainNonNegative(o); }
    }

    // A snapshot before the opening trade: the trades since the last one, and the
    // auction's result as price levels.
    method SnapUpdate(timestamp: int)
      requires bidQty.Length == askQty.Length
      modifies this
      ensures IsResult(bidQty[..], askQty[..], Opening(virtOpenPrice, virtOpenMatchedQty, virtOpenUnmatchedQty))
      ensures virtOpenAskRemainQty == SumTo(askQty[..], askQty.Length) - virtOpenMatchedQty
      ensures virtOpenBidRemainQty == SumTo(bidQty[..], bidQty.Length) - virtOpenMatchedQty
      ensures NonNegative(bidQty[..]) && NonNegative(askQty[..]) ==> virtOpenAskRemainQty >= 0 && virtOpenBidRemainQty >= 0
      ensures numTrades == 0 && volume == 0 && amount == 0 && lastPrice == old(lastPrice)
      ensures var matched := Level(virtOpenPrice, virtOpenMatchedQty);
              var left := virtOpenUnmatchedQty;
              var bids := if left <= 0 then [matched] else [matched, Level(virtOpenPrice, left)];
              var asks := if left >= 0 then [matched] else [matched, Level(virtOpenPrice, -left)];
              snapshots == old(snapshots) +
              [Snap(timestamp, preClosePrice, old(numTrades), old(volume), old(amount), lastPrice, bids, asks)]
    {
      var snap := Snap(timestamp, preClosePrice, numTrades, volume, amount, lastPrice, [], []);
      numTrades, volume, amount := 0, 0, 0;
      var o := Auction();
      var bids, asks := AsLevels(o);
      snapshots := snapshots + [snap.(bids := bids, asks := asks)];
    }

    method AsLevels(o: Opening) returns (bids: seq<Level>, asks: seq<Level>)
      ensures var matched := Level(o.price, o.matched);
              && bids == (if o.unmatched <= 0 then [matched] else [matched, Level(o.price, o.unmatched)])
              && asks == (if o.unmatched >= 0 then [matched] else [matched, Level(o.price, -o.unmatched)])
    {
      bids := [Level(o.price, o.matched)];
      if o.unmatched > 0 {
        bids := bids + [Level(o.price, o.unmatched)];
      }
      asks := [Level(o.price, o.matched)];
      if o.unmatched < 0 {
        asks := asks + [Level(o.price, -o.unmatched)];
      }
    }

    lemma RemainNonNegative(o: Opening)
      requires bidQty.Length == askQty.Length && IsResult(bidQty[..], askQty[..], o)
      requires NonNegative(bidQty[..]) && NonNegative(askQty[..])
      ensures o.matched <= SumTo(askQty[..], askQty.Length) && o.matched <= SumTo(bidQty[..], bidQty.Length)
    {
      if exists p: nat :: p < bidQty.Length && Matched(bidQty[..], askQty[..], p) > 0 {
        MatchedBounds(bidQty[..], askQty[..], o.price - lowerLimitPrice);
      } else {
        SumToMonotone(askQty[..], 0, askQty.Length);
        SumToMonotone(bidQty[..], 0, bidQty.Length);
      }
    }
  }
}
