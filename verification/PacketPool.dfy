// The packet buffers of the receive path: an intrusive list of free buffers, the
// adapter's receive ring, and the handler between them.
module PacketPool {
  import opened Arith

  const REFILL_BATCH_SIZE: int := 16
  const WORD: int := 0x1_0000_0000     // the ring's counters are 32-bit

  class PktBuf {
    var id: int
    var next: PktBuf?

    constructor ()
      ensures id == 0 && next == null
    {
      id, next := 0, null;
    }
  }

  // What polling the adapter returns.
  datatype Event = Rx(id: nat) | RxDiscard(id: nat) | Other {
    predicate Carries() {
      !Other?
    }
  }

  // The buffers that the events from i on carry.
  ghost function Carried(events: seq<Event>, i: nat): set<nat>
    decreases |events| - i
  {
    if i >= |events| then {}
    else Carried(events, i + 1) + if events[i].Carries() then {events[i].id} else {}
  }

  // The buffers carried, in order.
  function CarriedInOrder(events: seq<Event>): seq<nat> {
    if events == [] then []
    else
      var r, e := CarriedInOrder(events[..|events| - 1]), events[|events| - 1];
      if e.Carries() then r + [e.id] else r
  }

  // The buffers carried, last one first: the order in which they end up on the
  // free list.
  function Stacked(events: seq<Event>): seq<nat> {
    if events == [] then []
    else
      var r, e := Stacked(events[..|events| - 1]), events[|events| - 1];
      (if e.Carries() then [e.id] else []) + r
  }

  // A received packet is processed and its buffer freed whether the adapter would have it
  // discarded or not; nothing else is processed or freed.
  lemma {:induction false} ReceivedOrDiscarded(events: seq<Event>, id: nat)
    ensures id in Stacked(events) <==> Rx(id) in events || RxDiscard(id) in events
    ensures id in CarriedInOrder(events) <==> Rx(id) in events || RxDiscard(id) in events
    ensures id in Carried(events, 0) <==> Rx(id) in events || RxDiscard(id) in events
  {
    CarriedMembers(events, 0, id);
    assert events[0..] == events;
    if events != [] {
      var n := |events| - 1;
      ReceivedOrDiscarded(events[..n], id);
      assert events == events[..n] + [events[n]];
    }
  }

  lemma {:induction false} CarriedMembers(events: seq<Event>, i: nat, id: nat)
    requires i <= |events|
    ensures id in Carried(events, i) <==> Rx(id) in events[i..] || RxDiscard(id) in events[i..]
    decreases |events| - i
  {
    if i < |events| {
      CarriedMembers(events, i + 1, id);
      assert events[i..] == [events[i]] + events[i + 1..];
    }
  }

  // The packets are processed in the order of the events, and the buffer of the last one
  // is the first to be used again.
  lemma {:induction false} ReceivedInOrder(events: seq<Event>, k: nat)
    requires k < |events| && forall i :: 0 <= i < |events| ==> events[i] != Other
    ensures |CarriedInOrder(events)| == |Stacked(events)| == |events|
    ensures CarriedInOrder(events)[k] == events[k].id && Stacked(events)[|events| - 1 - k] == events[k].id
  {
    var n := |events| - 1;
    assert events[n] != Other;
    if n > 0 { ReceivedInOrder(events[..n], if k < n then k else 0); }
  }

  // No buffer is returned twice by one poll.
  ghost predicate Distinct(events: seq<Event>) {
    forall i, j :: 0 <= i < j < |events| && events[i].Carries() && events[j].Carries() ==> events[i].id != events[j].id
  }

  function CarriedCount(events: seq<Event>, i: nat): nat
    decreases |events| - i
  {
    if i >= |events| then 0 else CarriedCount(events, i + 1) + if events[i].Carries() then 1 else 0
  }

  lemma {:induction false} CarriedLater(events: seq<Event>, i: nat, j: nat)
    requires Distinct(events) && i < j && i < |events| && events[i].Carries()
    ensures events[i].id !in Carried(events, j)
    decreases |events| - j
  {
    if j < |events| { CarriedLater(events, i, j + 1); }
  }

  lemma NextEvent(events: seq<Event>, i: nat, free: seq<nat>)
    requires Distinct(events) && i < |events|
    ensures var x := if events[i].Carries() then [events[i].id] else [];
            && Carried(events, i) - (if events[i].Carries() then {events[i].id} else {}) == Carried(events, i + 1)
            && CarriedInOrder(events[..i + 1]) == CarriedInOrder(events[..i]) + x
            && Stacked(events[..i + 1]) + free == x + (Stacked(events[..i]) + free)
    ensures events[i].Carries() ==> events[i].id in Carried(events, i)
  {
    assert events[..i + 1][..i] == events[..i];
    if events[i].Carries() { CarriedLater(events, i, i + 1); }
  }

  lemma {:induction false} CarriedSize(events: seq<Event>, i: nat)
    requires Distinct(events)
    ensures |Carried(events, i)| == CarriedCount(events, i)
    decreases |events| - i
  {
    if i < |events| {
      CarriedSize(events, i + 1);
      if events[i].Carries() { CarriedLater(events, i, i + 1); }
    }
  }

  ghost predicate NoDuplicates(s: seq<nat>) {
    forall i, j :: 0 <= i < j < |s| ==> s[i] != s[j]
  }

  // Each of the first n buffers is in exactly one place.
  ghost predicate Conserved(n: nat, free: seq<nat>, posted: set<nat>, held: set<nat>) {
    && NoDuplicates(free)
    && (forall id: nat :: id < n <==> id in free || id in posted || id in held)
    && (forall id: nat :: id in free ==> id !in posted && id !in held)
    && posted !! held
    && |free| + |posted| + |held| == n
  }

  lemma NewBuffer(n: nat, free: seq<nat>, posted: set<nat>, held: set<nat>)
    requires Conserved(n, free, posted, held)
    ensures n !in free && Conserved(n + 1, [n] + free, posted, held)
  {
    assert n !in free && n !in posted && n !in held;
  }

  lemma FreeToRing(n: nat, free: seq<nat>, posted: set<nat>, held: set<nat>)
    requires Conserved(n, free, posted, held) && free != []
    ensures free[0] !in posted && |posted| < n && Conserved(n, free[1..], posted + {free[0]}, held)
  {
    forall id: nat
      ensures id in free <==> id in free[1..] || id == free[0]
    {
    }
  }

  lemma RingToHandler(n: nat, free: seq<nat>, posted: set<nat>, ids: set<nat>)
    requires Conserved(n, free, posted, {}) && ids <= posted
    ensures Conserved(n, free, posted - ids, ids) && |posted - ids| + |ids| == |posted|
  {
    assert posted == (posted - ids) + ids;
    assert |posted| == |posted - ids| + |ids|;
  }

  lemma HandlerToFree(n: nat, free: seq<nat>, posted: set<nat>, held: set<nat>, id: nat)
    requires Conserved(n, free, posted, held) && id in held
    ensures id !in free && id < n && Conserved(n, [id] + free, posted, held - {id})
  {
    assert id !in free;
    assert |held - {id}| == |held| - 1;
    forall x: nat
      ensures x in held <==> x in held - {id} || x == id
    {
    }
  }

  lemma {:induction false} BatchToRing(n: nat, free: seq<nat>, posted: set<nat>, held: set<nat>, k: nat)
    requires Conserved(n, free, posted, held) && k <= |free|
    ensures Conserved(n, free[k..], posted + Elements(free[..k]), held)
    ensures |posted + Elements(free[..k])| == |posted| + k <= n
  {
    if k == 0 {
      assert posted + Elements(free[..0]) == posted && free[0..] == free;
    } else {
      BatchToRing(n, free, posted, held, k - 1);
      OneMore(n, free, posted, held, k - 1);
    }
  }

  lemma OneMore(n: nat, free: seq<nat>, posted: set<nat>, held: set<nat>, k: nat)
    requires k < |free| && Conserved(n, free[k..], posted + Elements(free[..k]), held)
    ensures Conserved(n, free[k + 1..], posted + Elements(free[..k + 1]), held)
    ensures |posted + Elements(free[..k + 1])| == |posted + Elements(free[..k])| + 1 <= n
  {
    var before := posted + Elements(free[..k]);
    BatchStep(free, posted, k);
    FreeToRing(n, free[k..], before, held);
    PostedGrows(before, free[k]);
  }

  lemma PostedGrows(before: set<nat>, id: nat)
    requires id !in before
    ensures |before + {id}| == |before| + 1
  {
  }

  lemma BatchStep(free: seq<nat>, posted: set<nat>, k: nat)
    requires k < |free|
    ensures posted + Elements(free[..k + 1]) == posted + Elements(free[..k]) + {free[k]}
    ensures free[k..][0] == free[k] && free[k..][1..] == free[k + 1..]
  {
  }

  function Elements(s: seq<nat>): set<nat> {
    set x | x in s
  }

  // Handling the first i returned buffers keeps every buffer in one place.
  lemma {:induction false} HandlingConserves(n: nat, free: seq<nat>, posted: set<nat>, events: seq<Event>, i: nat)
    requires Distinct(events) && i <= |events| && Conserved(n, free, posted, Carried(events, 0))
    ensures Conserved(n, Stacked(events[..i]) + free, posted, Carried(events, i))
    ensures i < |events| && events[i].Carries() ==>
              events[i].id < n && events[i].id !in Stacked(events[..i]) + free
  {
    if i == 0 {
      assert Stacked(events[..0]) + free == free;
    } else {
      var k := i - 1;
      HandlingConserves(n, free, posted, events, k);
      NextEvent(events, k, free);
      if events[k].Carries() {
        HandlerToFree(n, Stacked(events[..k]) + free, posted, Carried(events, k), events[k].id);
      }
    }
    if i < |events| && events[i].Carries() {
      NextEvent(events, i, free);
      HandlerToFree(n, Stacked(events[..i]) + free, posted, Carried(events, i), events[i].id);
    }
  }

  // ---------- the pool over whole runs ----------

  // Between two turns of the receive thread no buffer is with the handler.
  datatype Pool = Pool(free: seq<nat>, posted: set<nat>)

  // A batch moves from the head of the free list to the ring, or nothing does.
  function Refilled(n: nat, p: Pool): Pool {
    if n - |p.posted| < REFILL_BATCH_SIZE || |p.free| < REFILL_BATCH_SIZE then p
    else Pool(p.free[REFILL_BATCH_SIZE..], p.posted + Elements(p.free[..REFILL_BATCH_SIZE]))
  }

  // One turn: nothing happens without events.
  ghost function AfterTurn(n: nat, p: Pool, events: seq<Event>): Pool {
    if events == [] then p else Refilled(n, Pool(Stacked(events) + p.free, p.posted - Carried(events, 0)))
  }

  ghost function AfterTurns(n: nat, p: Pool, polls: seq<seq<Event>>): Pool {
    if polls == [] then p else AfterTurn(n, AfterTurns(n, p, polls[..|polls| - 1]), polls[|polls| - 1])
  }

  // The adapter returns only what is posted, each buffer at most once.
  ghost predicate Returnable(p: Pool, events: seq<Event>) {
    Distinct(events) && Carried(events, 0) <= p.posted
  }

  ghost predicate Feasible(n: nat, p: Pool, polls: seq<seq<Event>>) {
    polls == [] ||
    (Feasible(n, p, polls[..|polls| - 1]) && Returnable(AfterTurns(n, p, polls[..|polls| - 1]), polls[|polls| - 1]))
  }

  ghost predicate Whole(n: nat, p: Pool) {
    Conserved(n, p.free, p.posted, {})
  }

  lemma RefillKeepsWhole(n: nat, p: Pool)
    requires Whole(n, p)
    ensures Whole(n, Refilled(n, p))
    ensures if n < REFILL_BATCH_SIZE then Refilled(n, p) == p else Refilled(n, p).posted != {}
  {
    if n - |p.posted| >= REFILL_BATCH_SIZE && |p.free| >= REFILL_BATCH_SIZE {
      BatchToRing(n, p.free, p.posted, {}, REFILL_BATCH_SIZE);
    }
  }

  lemma TurnKeepsWhole(n: nat, p: Pool, events: seq<Event>)
    requires Whole(n, p) && Returnable(p, events)
    ensures Whole(n, AfterTurn(n, p, events))
    ensures n < REFILL_BATCH_SIZE ==> AfterTurn(n, p, events).posted <= p.posted
    ensures n >= REFILL_BATCH_SIZE && events != [] ==> AfterTurn(n, p, events).posted != {}
  {
    var m := |events|;
    RingToHandler(n, p.free, p.posted, Carried(events, 0));
    HandlingConserves(n, p.free, p.posted - Carried(events, 0), events, m);
    assert events[..m] == events && Carried(events, m) == {};
    RefillKeepsWhole(n, Pool(Stacked(events) + p.free, p.posted - Carried(events, 0)));
  }

  // Over any run of turns the ring is filled exactly when its capacity is above 16,
  // or is 16 and some poll has returned an event.
  lemma {:induction false} RingFilledIff(n: nat, p: Pool, polls: seq<seq<Event>>)
    requires Whole(n, p) && (p.posted != {} <==> n > 16) && Feasible(n, p, polls)
    ensures Whole(n, AfterTurns(n, p, polls))
    ensures AfterTurns(n, p, polls).posted != {} <==>
            n > 16 || (n == 16 && exists k :: 0 <= k < |polls| && polls[k] != [])
  {
    if polls != [] {
      var init, last := polls[..|polls| - 1], polls[|polls| - 1];
      RingFilledIff(n, p, init);
      TurnKeepsWhole(n, AfterTurns(n, p, init), last);
      if k :| 0 <= k < |init| && init[k] != [] { assert polls[k] != []; }
      if k :| 0 <= k < |polls| && polls[k] != [] { assert k < |init| ==> init[k] != []; }
    }
  }

  lemma OneEmptyPoll(n: nat, p: Pool)
    ensures Feasible(n, p, [[Other]])
  {
    var polls, last := [[Other]], [Other];
    assert polls[..0] == [] && polls[0] == last;
    assert Carried(last, 1) == {} && Carried(last, 0) == {};
    assert Feasible(n, p, polls[..0]) && Returnable(AfterTurns(n, p, polls[..0]), last);
  }

  // So a ring is never filled, in any run, exactly when its capacity is below 16.
  lemma NeverFilledIff(n: nat, p: Pool)
    requires Whole(n, p) && (p.posted != {} <==> n > 16)
    ensures (forall polls :: Feasible(n, p, polls) ==> AfterTurns(n, p, polls).posted == {}) <==> n < 16
  {
    forall polls | Feasible(n, p, polls) && n < REFILL_BATCH_SIZE
      ensures AfterTurns(n, p, polls).posted == {}
    {
      RingFilledIff(n, p, polls);
    }
    if n >= REFILL_BATCH_SIZE {
      var polls := [[Other]];
      OneEmptyPoll(n, p);
      RingFilledIff(n, p, polls);
      assert polls[0] != [];
    }
  }

  // A list from buf, along the links, that runs through exactly these ids and ends.
  ghost predicate Chain(bufs: seq<PktBuf>, links: seq<PktBuf?>, buf: PktBuf?, ids: seq<nat>)
    requires |bufs| == |links|
  {
    if ids == [] then buf == null
    else ids[0] < |bufs| && buf == bufs[ids[0]] && Chain(bufs, links, links[ids[0]], ids[1..])
  }

  // A list does not notice other links.
  lemma {:induction false} ChainKept(bufs: seq<PktBuf>, links: seq<PktBuf?>, links': seq<PktBuf?>,
                                     buf: PktBuf?, ids: seq<nat>)
    requires |bufs| == |links| == |links'| && Chain(bufs, links, buf, ids)
    requires forall k :: 0 <= k < |ids| && ids[k] < |bufs| ==> links[ids[k]] == links'[ids[k]]
    ensures Chain(bufs, links', buf, ids)
  {
    if ids != [] { ChainKept(bufs, links, links', links[ids[0]], ids[1..]); }
  }

  // The next pointers of all buffers.
  ghost function Links(bufs: seq<PktBuf>): (l: seq<PktBuf?>)
    reads bufs
    ensures |l| == |bufs| && forall k :: 0 <= k < |l| ==> l[k] == bufs[k].next
  {
    seq(|bufs|, k requires 0 <= k < |bufs| reads bufs => bufs[k].next)
  }

  // What the handling of returned event i relies on.
  ghost predicate Handleable(n: nat, free: seq<nat>, events: seq<Event>, i: nat)
    requires i < |events|
  {
    var e, x := events[i], if events[i].Carries() then [events[i].id] else [];
    && Carried(events, i) - (if e.Carries() then {e.id} else {}) == Carried(events, i + 1)
    && CarriedInOrder(events[..i + 1]) == CarriedInOrder(events[..i]) + x
    && Stacked(events[..i + 1]) + free == x + (Stacked(events[..i]) + free)
    && (e.Carries() ==> e.id in Carried(events, i) && e.id < n && e.id !in Stacked(events[..i]) + free)
  }

  // What posting the k-th free buffer relies on.
  ghost predicate Postable(n: nat, free: seq<nat>, posted: set<nat>, k: nat)
    requires k < |free|
  {
    var before := posted + Elements(free[..k]);
    && free[k..] != [] && free[k..][0] == free[k] && free[k..][1..] == free[k + 1..]
    && free[k] !in before && |before| < n && before + {free[k]} == posted + Elements(free[..k + 1])
  }

  // What one turn relies on, step by step.
  ghost predicate Ready(n: nat, p: Pool, events: seq<Event>) {
    var free, posted := Stacked(events) + p.free, p.posted - Carried(events, 0);
    && |posted| + CarriedCount(events, 0) == |p.posted|
    && (forall i :: 0 <= i < |events| ==> Handleable(n, p.free, events, i))
    && (forall k :: 0 <= k < |free| ==> Postable(n, free, posted, k))
  }

  lemma AllHandleable(n: nat, free: seq<nat>, posted: set<nat>, events: seq<Event>)
    requires Distinct(events) && Conserved(n, free, posted, Carried(events, 0))
    ensures forall i :: 0 <= i < |events| ==> Handleable(n, free, events, i)
  {
    forall i | 0 <= i < |events|
      ensures Handleable(n, free, events, i)
    {
      NextEvent(events, i, free);
      HandlingConserves(n, free, posted, events, i);
    }
  }

  lemma AllPostable(n: nat, free: seq<nat>, posted: set<nat>, held: set<nat>)
    requires Conserved(n, free, posted, held)
    ensures forall k :: 0 <= k < |free| ==> Postable(n, free, posted, k)
  {
    forall k | 0 <= k < |free|
      ensures Postable(n, free, posted, k)
    {
      BatchToRing(n, free, posted, held, k);
      BatchStep(free, posted, k);
      FreeToRing(n, free[k..], posted + Elements(free[..k]), held);
    }
  }

  lemma WholeIsReady(n: nat, p: Pool, events: seq<Event>)
    requires Whole(n, p) && Returnable(p, events)
    ensures Ready(n, p, events)
  {
    var m, posted := |events|, p.posted - Carried(events, 0);
    CarriedSize(events, 0);
    RingToHandler(n, p.free, p.posted, Carried(events, 0));
    AllHandleable(n, p.free, posted, events);
    HandlingConserves(n, p.free, posted, events, m);
    assert events[..m] == events && Carried(events, m) == {};
    AllPostable(n, Stacked(events) + p.free, posted, {});
  }

  class Resources {
    const pktBufs: seq<PktBuf>         // the buffer memory, by buffer id
    const mask: nat                    // the capacity of the receive ring
    var freePktBufs: PktBuf?
    var freePktBufsN: int
    var added: nat
    var removed: nat

    ghost var free: seq<nat>           // the ids on the free list, from its head
    ghost var posted: set<nat>         // the ids in the receive ring
    ghost var held: set<nat>           // the ids polled but not yet handled
    ghost var processed: seq<nat>      // the ids whose packets were processed

    // The buffers are separate objects.
    ghost predicate Apart()
      reads this
    {
      forall i, j :: 0 <= i < j < |pktBufs| ==> pktBufs[i] != pktBufs[j]
    }

    // The free list is the list of free ids and the counter is its length.
    ghost predicate ListHolds()
      reads this, pktBufs
    {
      && freePktBufsN == |free| && Chain(pktBufs, Links(pktBufs), freePktBufs, free)
      && forall k :: 0 <= k < |free| ==> free[k] < |pktBufs| && pktBufs[free[k]].id == free[k]
    }

    // The ring's counters, which wrap, tell its fill level.
    ghost predicate CountersHold()
      reads this
    {
      added < WORD && removed < WORD && (added - removed) % WORD == |posted|
    }

    ghost predicate Shape()
      reads this, pktBufs
    {
      Apart() && ListHolds() && CountersHold() && |pktBufs| == mask < WORD
    }

    // The first n buffers know their ids.
    ghost predicate Tagged(n: nat)
      reads this, pktBufs
    {
      n <= |pktBufs| && forall id :: 0 <= id < n ==> pktBufs[id].id == id
    }

    ghost predicate Valid(n: nat)
      reads this, pktBufs
    {
      Shape() && Tagged(n) && Conserved(n, free, posted, held)
    }

    // The pool between two turns.
    ghost function AsPool(): Pool
      reads this
    {
      Pool(free, posted)
    }

    constructor (capacity: nat)
      requires capacity < WORD
      ensures Valid(0) && mask == capacity && posted == {} && processed == [] && held == {}
      ensures forall i :: 0 <= i < |pktBufs| ==> fresh(pktBufs[i])
    {
      var bufs: seq<PktBuf> := [];
      while |bufs| < capacity
        invariant |bufs| <= capacity
        invariant forall i :: 0 <= i < |bufs| ==> fresh(bufs[i])
        invariant forall i, j :: 0 <= i < j < |bufs| ==> bufs[i] != bufs[j]
      {
        var buf := new PktBuf();
        bufs := bufs + [buf];
      }
      pktBufs, mask := bufs, capacity;
      freePktBufs, freePktBufsN, added, removed := null, 0, 0, 0;
      free, posted, held, processed := [], {}, {}, [];
    }

    method ReceiveSpace() returns (space: int)
      requires CountersHold()
      ensures space == mask - |posted|
    {
      space := mask - (added - removed) % WORD;
    }

    // Push a buffer that is in no other place to the head of the free list.
    method PktBufFree(id: nat)
      requires Apart() && ListHolds() && id < |pktBufs| && id !in free && pktBufs[id].id == id
      modifies `freePktBufs, `freePktBufsN, `free, pktBufs[id]
      ensures ListHolds() && free == [id] + old(free) && pktBufs[id].id == id
    {
      var buf := pktBufs[id];
      buf.next := freePktBufs;
      freePktBufs := buf;
      freePktBufsN := freePktBufsN + 1;
      assert ([id] + free)[1..] == free;
      free := [id] + free;
      ChainKept(pktBufs, old(Links(pktBufs)), Links(pktBufs), old(freePktBufs), old(free));
    }

    // Take the head of the free list and post it to the ring.
    method PostOne()
      requires Shape() && free != [] && free[0] !in posted && |posted| < mask
      modifies `freePktBufs, `freePktBufsN, `free, `posted, `added
      ensures Shape() && free == old(free)[1..] && posted == old(posted) + {old(free)[0]}
    {
      var buf := freePktBufs;
      freePktBufs := buf.next;
      freePktBufsN := freePktBufsN - 1;
      free := free[1..];
      ReceiveInit(buf.id);
      assert Links(pktBufs) == old(Links(pktBufs));
    }

    method ReceiveInit(id: int)
      requires CountersHold() && id >= 0 && id !in posted && |posted| + 1 < WORD
      modifies `posted, `added
      ensures CountersHold() && posted == old(posted) + {id}
    {
      CounterStep(added - removed, |posted|, 1);
      CounterWraps(added, removed, 1);
      added := (added + 1) % WORD;
      posted := posted + {id};
    }

    // A batch moves from the head of the free list to the ring, or nothing does.
    method RefillRxRing()
      requires Shape() && forall k :: 0 <= k < |free| ==> Postable(mask, free, posted, k)
      modifies `freePktBufs, `freePktBufsN, `free, `posted, `added
      ensures Shape() && AsPool() == Refilled(mask, old(AsPool()))
    {
      var space := ReceiveSpace();
      if space < REFILL_BATCH_SIZE || freePktBufsN < REFILL_BATCH_SIZE {
        return;
      }
      ghost var all, before := free, posted;
      for i := 0 to REFILL_BATCH_SIZE
        invariant Shape() && free == all[i..] && posted == before + Elements(all[..i])
      {
        assert Postable(mask, all, before, i);
        PostOne();
      }
    }

    // One packet: process it, then free its buffer.
    method HandleRx(id: nat)
      requires Shape() && Tagged(mask) && id < mask && id !in free && id in held
      modifies `freePktBufs, `freePktBufsN, `free, `held, `processed, pktBufs[id]
      ensures Shape() && Tagged(mask)
      ensures free == [id] + old(free) && held == old(held) - {id} && processed == old(processed) + [id]
    {
      PktBufFree(id);
      held, processed := held - {id}, processed + [id];
    }

    // The returned buffers leave the ring; its fill level falls by their number.
    method EventqPoll(events: seq<Event>)
      requires Shape() && held == {} && |posted - Carried(events, 0)| + CarriedCount(events, 0) == |posted|
      modifies `posted, `held, `removed
      ensures Shape() && held == Carried(events, 0) && posted == old(posted) - held
    {
      ghost var ids := Carried(events, 0);
      CountRemoved(events, |posted - ids|);
      held, posted := ids, posted - ids;
    }

    method CountRemoved(events: seq<Event>, ghost level: nat)
      requires added < WORD && removed < WORD && level + CarriedCount(events, 0) < WORD
      requires (added - removed) % WORD == level + CarriedCount(events, 0)
      modifies `removed
      ensures removed < WORD && (added - removed) % WORD == level
    {
      for i := 0 to |events|
        invariant removed < WORD && (added - removed) % WORD == level + CarriedCount(events, i)
        invariant level + CarriedCount(events, i) < WORD
      {
        if events[i].Carries() {
          CounterStep(added - removed, level + CarriedCount(events, i), -1);
          CounterWraps(removed, added, 1);
          removed := (removed + 1) % WORD;
        }
      }
    }

    // All buffers start on the free list; then the ring is filled in batches, and
    // left empty exactly when its capacity is at most 16.
    method Init()
      requires Valid(0) && posted == {} && held == {} && processed == []
      modifies this, pktBufs
      ensures Valid(mask) && held == {} && processed == []
      ensures mask - |posted| <= 16
      ensures posted != {} <==> mask > 16
    {
      FillFreeList();
      FillRing();
    }

    method FillRing()
      requires Shape() && Whole(mask, AsPool()) && held == {} && posted == {}
      modifies `freePktBufs, `freePktBufsN, `free, `posted, `added
      ensures Shape() && Whole(mask, AsPool()) && mask - |posted| <= REFILL_BATCH_SIZE
      ensures posted != {} <==> mask > REFILL_BATCH_SIZE
    {
      var space := ReceiveSpace();
      while space > REFILL_BATCH_SIZE
        invariant Shape() && Whole(mask, AsPool()) && space == mask - |posted|
        invariant if space < mask then mask > REFILL_BATCH_SIZE && |posted| > 0 else posted == {}
        decreases space
      {
        FillOnce();
        space := ReceiveSpace();
      }
    }

    method FillOnce()
      requires Shape() && Whole(mask, AsPool()) && held == {} && mask - |posted| > REFILL_BATCH_SIZE
      modifies `freePktBufs, `freePktBufsN, `free, `posted, `added
      ensures Shape() && Whole(mask, AsPool()) && |posted| == |old(posted)| + REFILL_BATCH_SIZE
    {
      RefillPosts(mask, AsPool());
      AllPostable(mask, free, posted, held);
      RefillRxRing();
    }

    method FillFreeList()
      requires Valid(0) && posted == {} && held == {}
      modifies `freePktBufs, `freePktBufsN, `free, pktBufs
      ensures Valid(mask)
    {
      for i := 0 to |pktBufs|
        invariant Valid(i)
      {
        NewBuffer(i, free, posted, held);
        ghost var links := Links(pktBufs);
        pktBufs[i].id := i;
        assert Links(pktBufs) == links;
        PktBufFree(i);
      }
    }

    // One turn of the receive thread: poll, handle every event, refill once.  Every
    // returned packet is processed once, in order, and every buffer stays in
    // exactly one place.
    method PollOnce(events: seq<Event>)
      requires Shape() && Tagged(mask) && held == {}
      requires Whole(mask, AsPool()) && Returnable(AsPool(), events)
      modifies this, pktBufs
      ensures Shape() && Tagged(mask) && held == {}
      ensures AsPool() == AfterTurn(mask, old(AsPool()), events) && Whole(mask, AsPool())
      ensures processed == old(processed) + CarriedInOrder(events)
    {
      WholeIsReady(mask, AsPool(), events);
      TurnKeepsWhole(mask, AsPool(), events);
      Turn(events);
    }

    method Turn(events: seq<Event>)
      requires Shape() && Tagged(mask) && held == {} && Ready(mask, AsPool(), events)
      modifies this, pktBufs
      ensures Shape() && Tagged(mask) && held == {}
      ensures AsPool() == AfterTurn(mask, old(AsPool()), events)
      ensures processed == old(processed) + CarriedInOrder(events)
    {
      EventqPoll(events);
      if |events| > 0 {
        HandleEvents(events);
        RefillRxRing();
      }
    }

    method HandleEvents(events: seq<Event>)
      requires Shape() && Tagged(mask) && held == Carried(events, 0)
      requires forall i :: 0 <= i < |events| ==> Handleable(mask, free, events, i)
      modifies `freePktBufs, `freePktBufsN, `free, `held, `processed, pktBufs
      ensures Shape() && Tagged(mask) && held == {} && free == Stacked(events) + old(free)
      ensures processed == old(processed) + CarriedInOrder(events)
    {
      ghost var before, start := processed, free;
      assert Stacked(events[..0]) + start == start;
      for i := 0 to |events|
        invariant Shape() && Tagged(mask) && held == Carried(events, i)
        invariant free == Stacked(events[..i]) + start && processed == before + CarriedInOrder(events[..i])
      {
        assert Handleable(mask, start, events, i);
        Extended(before, CarriedInOrder(events[..i]), if events[i].Carries() then [events[i].id] else []);
        HandleEvent(events[i]);
      }
      assert events[..|events|] == events;
    }

    method HandleEvent(e: Event)
      requires Shape() && Tagged(mask) && (e.Carries() ==> e.id in held && e.id < mask && e.id !in free)
      modifies `freePktBufs, `freePktBufsN, `free, `held, `processed, pktBufs
      ensures Shape() && Tagged(mask) && held == old(held) - (if e.Carries() then {e.id} else {})
      ensures free == (if e.Carries() then [e.id] else []) + old(free)
      ensures processed == old(processed) + if e.Carries() then [e.id] else []
    {
      match e
      case Rx(id) => HandleRx(id);
      case RxDiscard(id) => HandleRx(id);
      case Other =>
    }

    // The receive thread over any run of polls.
    method WorkThread(polls: seq<seq<Event>>)
      requires Shape() && Tagged(mask) && held == {}
      requires Whole(mask, AsPool()) && Feasible(mask, AsPool(), polls)
      modifies this, pktBufs
      ensures Shape() && Tagged(mask) && held == {}
      ensures AsPool() == AfterTurns(mask, old(AsPool()), polls)
      ensures processed == old(processed) + AllCarried(polls)
    {
      AllTurnsReady(mask, AsPool(), polls);
      RunPolls(polls);
    }

    method RunPolls(polls: seq<seq<Event>>)
      requires Shape() && Tagged(mask) && held == {}
      requires forall i :: 0 <= i < |polls| ==> TurnReady(mask, AsPool(), polls, i)
      modifies this, pktBufs
      ensures Shape() && Tagged(mask) && held == {}
      ensures AsPool() == AfterTurns(mask, old(AsPool()), polls)
      ensures processed == old(processed) + AllCarried(polls)
    {
      ghost var start, before := AsPool(), processed;
      for i := 0 to |polls|
        invariant Shape() && Tagged(mask) && held == {}
        invariant AsPool() == AfterTurns(mask, start, polls[..i]) && processed == before + AllCarried(polls[..i])
      {
        assert TurnReady(mask, start, polls, i);
        Extended(before, AllCarried(polls[..i]), CarriedInOrder(polls[i]));
        ghost var p, p' := AsPool(), AfterTurns(mask, start, polls[..i + 1]);
        Turn(polls[i]);
        assert AsPool() == AfterTurn(mask, p, polls[i]) == p';
      }
      assert polls[..|polls|] == polls;
    }
  }

  // What turn i of a run relies on.
  ghost predicate TurnReady(n: nat, p: Pool, polls: seq<seq<Event>>, i: nat)
    requires i < |polls|
  {
    && Ready(n, AfterTurns(n, p, polls[..i]), polls[i])
    && AfterTurns(n, p, polls[..i + 1]) == AfterTurn(n, AfterTurns(n, p, polls[..i]), polls[i])
    && AllCarried(polls[..i + 1]) == AllCarried(polls[..i]) + CarriedInOrder(polls[i])
  }

  // Buffers stay in one place over every feasible run, so every turn is ready.
  lemma {:induction false} TurnsKeepWhole(n: nat, p: Pool, polls: seq<seq<Event>>)
    requires Whole(n, p) && Feasible(n, p, polls)
    ensures Whole(n, AfterTurns(n, p, polls))
  {
    if polls != [] {
      var init := polls[..|polls| - 1];
      TurnsKeepWhole(n, p, init);
      TurnKeepsWhole(n, AfterTurns(n, p, init), polls[|polls| - 1]);
    }
  }

  lemma AllTurnsReady(n: nat, p: Pool, polls: seq<seq<Event>>)
    requires Whole(n, p) && Feasible(n, p, polls)
    ensures forall i :: 0 <= i < |polls| ==> TurnReady(n, p, polls, i)
  {
    forall i | 0 <= i < |polls|
      ensures TurnReady(n, p, polls, i)
    {
      FeasiblePrefix(n, p, polls, i);
      TurnsKeepWhole(n, p, polls[..i]);
      NextPoll(n, p, polls, i);
      WholeIsReady(n, AfterTurns(n, p, polls[..i]), polls[i]);
    }
  }

  // Every packet a run of polls has returned, in order.
  function AllCarried(polls: seq<seq<Event>>): seq<nat> {
    if polls == [] then [] else AllCarried(polls[..|polls| - 1]) + CarriedInOrder(polls[|polls| - 1])
  }

  lemma {:induction false} FeasiblePrefix(n: nat, p: Pool, polls: seq<seq<Event>>, i: nat)
    requires Feasible(n, p, polls) && i <= |polls|
    ensures Feasible(n, p, polls[..i])
  {
    if i < |polls| {
      FeasiblePrefix(n, p, polls[..|polls| - 1], i);
      assert polls[..|polls| - 1][..i] == polls[..i];
    } else {
      assert polls[..i] == polls;
    }
  }

  lemma NextPoll(n: nat, p: Pool, polls: seq<seq<Event>>, i: nat)
    requires Feasible(n, p, polls) && i < |polls|
    ensures Returnable(AfterTurns(n, p, polls[..i]), polls[i])
    ensures AfterTurns(n, p, polls[..i + 1]) == AfterTurn(n, AfterTurns(n, p, polls[..i]), polls[i])
    ensures AllCarried(polls[..i + 1]) == AllCarried(polls[..i]) + CarriedInOrder(polls[i])
  {
    FeasiblePrefix(n, p, polls, i + 1);
    assert polls[..i + 1][..i] == polls[..i];
  }

  lemma RefillPosts(n: nat, p: Pool)
    requires Whole(n, p) && n - |p.posted| > REFILL_BATCH_SIZE
    ensures Whole(n, Refilled(n, p)) && |Refilled(n, p).posted| == |p.posted| + REFILL_BATCH_SIZE
  {
    RefillKeepsWhole(n, p);
    BatchToRing(n, p.free, p.posted, {}, REFILL_BATCH_SIZE);
  }

  lemma Extended(a: seq<nat>, b: seq<nat>, c: seq<nat>)
    ensures a + (b + c) == a + b + c
  {
  }

  // Adding to a counter modulo its width.
  lemma CounterStep(difference: int, level: int, delta: int)
    requires difference % WORD == level && 0 <= level + delta < WORD
    ensures (difference + delta) % WORD == level + delta
  {
    DivModUnique(difference + delta, WORD, difference / WORD, level + delta);
  }

  lemma CounterWraps(a: nat, b: nat, delta: nat)
    ensures ((a + delta) % WORD - b) % WORD == (a + delta - b) % WORD
    ensures (b - (a + delta) % WORD) % WORD == (b - a - delta) % WORD
  {
    var k := (a + delta) / WORD;
    DivModShift((a + delta) % WORD - b, WORD, k);
    DivModShift(b - (a + delta) % WORD, WORD, -k);
  }
}
