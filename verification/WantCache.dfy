// The 16-slot ring of buy decisions, indexed by time through a nearest-match scan.
module WantCache {
  import opened Arith
  import opened Timestamp

  const SLOTS: nat := 16
  const TOLERANCE: int := 402          // kWantBuyTimeTolerance

  datatype Intent = WantBuy | DontBuy | NotSure

  // A decision for a linear time; times on the 100 ms grid are even.
  datatype Decision = Decision(time: nat, want: bool)

  // A wanted buy is stored one below its time, so its low bit is set.
  function Encode(d: Decision): int {
    if d.want then d.time - 1 else d.time
  }

  // The slot contents after a sequence of pushes, oldest first.
  function Slots(pushes: seq<Decision>): (s: seq<int>)
    ensures |s| == SLOTS
  {
    if pushes == [] then seq(SLOTS, _ => 0)
    else
      var n := |pushes| - 1;
      Slots(pushes[..n])[n % SLOTS := Encode(pushes[n])]
  }

  function Distance(a: int, b: int): nat {
    if a < b then b - a else a - b
  }

  // The grid time a query is for.
  function Rounded(timestamp: nat): nat {
    (Linear(timestamp) + 90) / 100 * 100
  }

  // What a stored value answers for a query at time q.
  function Answer(stored: int, q: nat): Intent {
    if Distance(stored, q) > TOLERANCE then NotSure
    else if stored % 2 == 0 then DontBuy
    else WantBuy
  }

  // at is the first of the nearest slots to q.
  ghost predicate IsNearest(slots: seq<int>, q: nat, at: nat) {
    && at < |slots|
    && (forall i :: 0 <= i < |slots| ==> Distance(slots[at], q) <= Distance(slots[i], q))
    && (forall i :: 0 <= i < at ==> Distance(slots[at], q) < Distance(slots[i], q))
  }

  // The slot the scan ends with.
  function FirstNearest(slots: seq<int>, q: nat): (at: nat)
    requires slots != []
    ensures IsNearest(slots, q, at)
  {
    var n := |slots| - 1;
    if n == 0 then 0
    else
      var at := FirstNearest(slots[..n], q);
      if Distance(slots[n], q) < Distance(slots[at], q) then n else at
  }

  // The answer of the slots to a query at a clock time.
  function Query(slots: seq<int>, timestamp: nat): Intent
    requires slots != []
  {
    var q := Rounded(timestamp);
    Answer(slots[FirstNearest(slots, q)], q)
  }

  class Cache {
    const wantBuyTimestamp: array<int>
    var wantBuyCurrentIndex: nat
    ghost var pushes: seq<Decision>    // every decision pushed so far

    ghost predicate Valid()
      reads this, wantBuyTimestamp
    {
      && wantBuyTimestamp.Length == SLOTS
      && wantBuyTimestamp[..] == Slots(pushes)
      && wantBuyCurrentIndex == |pushes| % SLOTS
    }

    constructor ()
      ensures Valid() && pushes == [] && fresh(wantBuyTimestamp)
    {
      wantBuyTimestamp := new int[SLOTS](_ => 0);
      wantBuyCurrentIndex := 0;
      pushes := [];
    }

    method PushWantBuyTimestamp(timestamp: nat, wantBuy: bool)
      requires Valid()
      modifies this, wantBuyTimestamp
      ensures Valid()
      ensures pushes == old(pushes) + [Decision(Linear(timestamp), wantBuy)]
    {
      var time: int := Linear(timestamp);
      if wantBuy {
        time := time - 1;
      }
      wantBuyTimestamp[wantBuyCurrentIndex] := time;
      IndexWraps(wantBuyCurrentIndex, |pushes|);
      wantBuyCurrentIndex := And(wantBuyCurrentIndex + 1, SLOTS - 1);
      pushes := pushes + [Decision(Linear(timestamp), wantBuy)];
      assert pushes[..|pushes| - 1] == old(pushes);
    }

    method CheckWantBuyAtTimestamp(timestamp: nat) returns (r: Intent)
      requires Valid()
      ensures r == Query(Slots(pushes), timestamp)
      ensures GridTimes(pushes) ==>
                forall k: nat :: Answers(pushes, k, timestamp) ==> r == AnswerFor(pushes, pushes[k].time)
    {
      var q := Rounded(timestamp);
      var minTimestamp := wantBuyTimestamp[0];
      var minDt := Distance(minTimestamp, q);
      ghost var at := 0;
      for i := 1 to wantBuyTimestamp.Length
        invariant at < i && minTimestamp == wantBuyTimestamp[at] && minDt == Distance(minTimestamp, q)
        invariant forall j :: 0 <= j < i ==> minDt <= Distance(wantBuyTimestamp[j], q)
        invariant forall j :: 0 <= j < at ==> minDt < Distance(wantBuyTimestamp[j], q)
      {
        var dt := Distance(wantBuyTimestamp[i], q);
        if dt < minDt {
          minDt, minTimestamp, at := dt, wantBuyTimestamp[i], i;
        }
      }
      if minDt > TOLERANCE {
        r := NotSure;
      } else {
        r := if minTimestamp % 2 == 0 then DontBuy else WantBuy;
      }
      NearestIsUnique(wantBuyTimestamp[..], q, at);
      AllAnswered(pushes, timestamp);
    }
  }

  lemma NearestIsUnique(slots: seq<int>, q: nat, at: nat)
    requires IsNearest(slots, q, at)
    ensures FirstNearest(slots, q) == at
  {
  }

  lemma IndexWraps(index: nat, n: nat)
    requires index == n % SLOTS
    ensures And(index + 1, SLOTS - 1) == (n + 1) % SLOTS
  {
    assert Pow2(4) == SLOTS;
    AndMask(index + 1, 4);
    DivModShift(index + 1, SLOTS, n / SLOTS);
    assert index + 1 + n / SLOTS * SLOTS == n + 1;
  }

  // The latest of n pushes that went to slot i.
  function Latest(n: nat, i: nat): (k: nat)
    requires i < SLOTS && i < n
  {
    n - 1 - (n - 1 - i) % SLOTS
  }

  lemma LatestMeaning(n: nat, i: nat)
    requires i < SLOTS && i < n
    ensures Latest(n, i) < n <= Latest(n, i) + SLOTS && Latest(n, i) % SLOTS == i
    ensures Latest(n + 1, i) == if i == n % SLOTS then n else Latest(n, i)
  {
  }

  lemma LatestIs(n: nat, k: nat)
    requires k < n <= k + SLOTS
    ensures Latest(n, k % SLOTS) == k
  {
  }

  // The ring against the list it stands for: a slot holds the last decision pushed
  // to it, one of the last 16, and zero where nothing was pushed yet.
  lemma {:induction false} SlotsHoldTheLast16(pushes: seq<Decision>, i: nat)
    requires i < SLOTS
    ensures Slots(pushes)[i] == if i < |pushes| then Encode(pushes[Latest(|pushes|, i)]) else 0
  {
    if pushes != [] {
      var n := |pushes| - 1;
      SlotsHoldTheLast16(pushes[..n], i);
      if i < n {
        LatestMeaning(n, i);
      } else if i == n {
        LatestIs(n + 1, n);
      }
    }
  }

  // Pushed times lie on the 100 ms grid.
  ghost predicate GridTimes(pushes: seq<Decision>) {
    forall k :: 0 <= k < |pushes| ==> OnGrid(pushes[k])
  }

  ghost predicate Retained(pushes: seq<Decision>, k: nat) {
    k < |pushes| <= k + SLOTS
  }

  // Some retained decision for time q is not to buy.
  ghost predicate Refused(pushes: seq<Decision>, q: nat) {
    exists k: nat :: Retained(pushes, k) && pushes[k].time == q && !pushes[k].want
  }

  predicate OnGrid(d: Decision) {
    d.time % 100 == 0
  }

  // Every retained decision is in some slot.
  lemma RetainedIsStored(pushes: seq<Decision>, k: nat) returns (i: nat)
    requires Retained(pushes, k)
    ensures i < SLOTS && Slots(pushes)[i] == Encode(pushes[k])
  {
    i := k % SLOTS;
    SlotsHoldTheLast16(pushes, i);
    LatestIs(|pushes|, k);
  }

  // Every slot holds a retained decision, or zero before the ring has filled.
  lemma StoredIsRetained(pushes: seq<Decision>, i: nat) returns (j: nat)
    requires i < SLOTS
    ensures (Slots(pushes)[i] == 0 && j == |pushes| <= i) ||
            (Retained(pushes, j) && Slots(pushes)[i] == Encode(pushes[j]))
  {
    SlotsHoldTheLast16(pushes, i);
    j := |pushes|;
    if i < |pushes| {
      LatestMeaning(|pushes|, i);
      j := Latest(|pushes|, i);
    }
  }

  // Until the ring has filled, an empty slot reads as a refusal for time zero.
  ghost predicate ReadsEmpty(pushes: seq<Decision>, q: nat) {
    q == 0 && |pushes| < SLOTS
  }

  // Decision k is retained, and the query falls between 90 ms before its time and 9 ms
  // after it.
  ghost predicate Answers(pushes: seq<Decision>, k: nat, timestamp: nat) {
    Retained(pushes, k) && pushes[k].time - 90 <= Linear(timestamp) <= pushes[k].time + 9
  }

  // A buy exactly when no decision retained for the time refuses, empty slots included.
  ghost function AnswerFor(pushes: seq<Decision>, time: nat): Intent {
    if Refused(pushes, time) || ReadsEmpty(pushes, time) then DontBuy else WantBuy
  }

  // A query from 90 ms before a retained time to 9 ms after it is answered by the
  // decisions retained for that time.
  lemma RetainedTimeIsAnswered(pushes: seq<Decision>, timestamp: nat, k: nat)
    requires GridTimes(pushes) && Retained(pushes, k)
    requires pushes[k].time - 90 <= Linear(timestamp) <= pushes[k].time + 9
    ensures Query(Slots(pushes), timestamp) ==
            if Refused(pushes, pushes[k].time) || ReadsEmpty(pushes, pushes[k].time) then DontBuy else WantBuy
  {
    var q := pushes[k].time;
    assert OnGrid(pushes[k]);
    RoundsTo(timestamp, q);
    var at := FirstNearest(Slots(pushes), q);
    var j := StoredIsRetained(pushes, at);
    var best := if j < |pushes| then pushes[j] else Decision(0, false);
    var other, i := SomeRefusal(pushes, q, k);
    NearestIsExact(best, other);
    AnswerIsDecision(best);
  }

  lemma AllAnswered(pushes: seq<Decision>, timestamp: nat)
    ensures GridTimes(pushes) ==> forall k: nat :: Answers(pushes, k, timestamp) ==>
              Query(Slots(pushes), timestamp) == AnswerFor(pushes, pushes[k].time)
  {
    if GridTimes(pushes) {
      forall k: nat | Answers(pushes, k, timestamp)
        ensures Query(Slots(pushes), timestamp) == AnswerFor(pushes, pushes[k].time)
      {
        RetainedTimeIsAnswered(pushes, timestamp, k);
      }
    }
  }

  // A grid time is what the queries around it round to.
  lemma RoundsTo(timestamp: nat, q: nat)
    requires q % 100 == 0
    ensures q - 90 <= Linear(timestamp) <= q + 9 <==> Rounded(timestamp) == q
  {
    var x := Linear(timestamp) + 90;
    assert x == x / 100 * 100 + x % 100 && q == q / 100 * 100;
    if q - 90 <= Linear(timestamp) <= q + 9 { DivModUnique(x, 100, q / 100, x - q); }
  }

  // A stored decision for time q: a refusal whenever there is one.
  lemma SomeRefusal(pushes: seq<Decision>, q: nat, k: nat) returns (d: Decision, i: nat)
    requires GridTimes(pushes) && Retained(pushes, k) && q == pushes[k].time
    ensures i < SLOTS && Slots(pushes)[i] == Encode(d) && OnGrid(d) && d.time == q
    ensures Refused(pushes, q) || ReadsEmpty(pushes, q) ==> !d.want
  {
    if Refused(pushes, q) {
      var r: nat :| Retained(pushes, r) && pushes[r].time == q && !pushes[r].want;
      d := pushes[r];
      i := RetainedIsStored(pushes, r);
    } else if ReadsEmpty(pushes, q) {
      d, i := Decision(0, false), |pushes|;
      SlotsHoldTheLast16(pushes, i);
    } else {
      d := pushes[k];
      i := RetainedIsStored(pushes, k);
    }
  }

  // With one retained decision for its time the answer is that decision.
  lemma RetainedDecisionIsFound(pushes: seq<Decision>, timestamp: nat, k: nat)
    requires GridTimes(pushes) && Retained(pushes, k)
    requires pushes[k].time - 90 <= Linear(timestamp) <= pushes[k].time + 9
    requires forall j: nat :: Retained(pushes, j) && j != k ==> pushes[j].time != pushes[k].time
    ensures Query(Slots(pushes), timestamp) ==
            if pushes[k].want && !(pushes[k].time == 0 && |pushes| < 16) then WantBuy else DontBuy
  {
    RetainedTimeIsAnswered(pushes, timestamp, k);
  }

  // Distinct grid times are at least 100 apart, so what is stored nearer to a
  // grid time than one of its own decisions is another of its own.
  lemma NearestIsExact(d: Decision, e: Decision)
    requires OnGrid(d) && OnGrid(e) && Distance(Encode(d), e.time) <= Distance(Encode(e), e.time)
    ensures d.time == e.time && (!e.want ==> !d.want)
  {
    Apart(d.time / 100, e.time / 100, if d.want then 1 else 0, if e.want then 1 else 0);
  }

  // The low bit tells the decision.
  lemma AnswerIsDecision(d: Decision)
    requires OnGrid(d)
    ensures Answer(Encode(d), d.time) == if d.want then WantBuy else DontBuy
  {
    LowBit(d.time / 100, if d.want then 1 else 0);
  }

  lemma Apart(a: nat, b: nat, v: int, w: int)
    requires 0 <= v <= 1 && 0 <= w <= 1
    requires Distance(100 * a - v, 100 * b) <= Distance(100 * b - w, 100 * b)
    ensures a == b
  {
  }

  lemma LowBit(b: nat, w: int)
    requires 0 <= w <= 1
    ensures (100 * b - w) % 2 == w
  {
    DivModUnique(100 * b - w, 2, 50 * b - w, w);
  }

  // A buy is never invented: it was pushed among the last 16, for a time close to the
  // query.
  lemma WantBuyWasPushed(pushes: seq<Decision>, timestamp: nat) returns (j: nat)
    requires GridTimes(pushes) && Query(Slots(pushes), timestamp) == WantBuy
    ensures j < |pushes| <= j + 16 && pushes[j].want
    ensures Linear(timestamp) - 411 <= pushes[j].time - 1 <= Linear(timestamp) + 492
  {
    var q := Rounded(timestamp);
    RoundsTo(timestamp, q);
    j := StoredIsRetained(pushes, FirstNearest(Slots(pushes), q));
    if j < |pushes| {
      assert OnGrid(pushes[j]);
      LowBit(pushes[j].time / 100, if pushes[j].want then 1 else 0);
    }
  }

  // The answer is NotSure exactly when every stored time is more than 402 ms from the
  // grid time q of the query.
  lemma NotSureMeansOutOfTolerance(slots: seq<int>, timestamp: nat, q: nat)
    requires slots != [] && q % 100 == 0 && q - 90 <= Linear(timestamp) <= q + 9
    ensures Query(slots, timestamp) == NotSure <==>
            forall i :: 0 <= i < |slots| ==> slots[i] < q - 402 || q + 402 < slots[i]
  {
    RoundsTo(timestamp, q);
    var at := FirstNearest(slots, q);
    assert Distance(slots[at], q) > TOLERANCE <==> slots[at] < q - 402 || q + 402 < slots[at];
  }
}
