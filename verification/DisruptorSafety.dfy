// The safety theorems: what holds in every state that any interleaving of
// producers, workers, a pool halt and a backlog check can reach.
module DisruptorSafety {
  import opened Options
  import opened Arith
  import opened DisruptorProtocol
  import opened DisruptorInvariant
  import opened DisruptorSteps

  // s is reached from a fresh ring of some size by some run.
  ghost predicate Reachable(s: State) {
    exists entries: seq<int>, producers: nat, workers: nat, run: seq<Action> ::
      |entries| > 0 && Run(Init(|entries|, entries, producers, workers), run) == Some(s)
  }

  lemma InitInv(entries: seq<int>, producers: nat, workers: nat)
    requires |entries| > 0
    ensures Inv(Init(|entries|, entries, producers, workers))
  {
    var s := Init(|entries|, entries, producers, workers);
    assert Gating(s) == seq(workers + 1, _ => INITIAL);
    forall x | InWindow(s, x) ensures s.flags[Slot(s.size, x)] == Flag(s.size, x) {
      DivModUnique(x, s.size, -1, x + s.size);
    }
  }

  lemma {:induction false} RunKeepsInv(s: State, run: seq<Action>)
    requires Inv(s) && Run(s, run).Some?
    ensures Inv(Run(s, run).value)
    decreases |run|
  {
    if run != [] {
      RunKeepsInv(s, run[..|run| - 1]);
      StepKeepsInv(Run(s, run[..|run| - 1]).value, run[|run| - 1]);
    }
  }

  lemma ReachableInv(s: State)
    requires Reachable(s)
    ensures Inv(s)
  {
    var entries: seq<int>, producers: nat, workers: nat, run :|
      |entries| > 0 && Run(Init(|entries|, entries, producers, workers), run) == Some(s);
    InitInv(entries, producers, workers);
    RunKeepsInv(Init(|entries|, entries, producers, workers), run);
  }

  // Every sequence at or below all gating sequences has been handled.
  lemma GatingIsSound(s: State, x: int)
    requires Reachable(s) && 0 <= x && BelowGating(s, x)
    ensures x in s.history.processed && x in s.history.published
  {
    ReachableInv(s);
    BelowGatingIsDrained(s, x);
  }

  // No sequence is claimed by two workers, and a held one is not handled yet.
  lemma WorkersClaimApart(s: State, v: nat, w: nat, n: int)
    requires Reachable(s) && v < |s.workers| && w < |s.workers| && Holds(s, v, n) && Holds(s, w, n)
    ensures v == w && n !in s.history.processed
  {
    ReachableInv(s);
    assert WorkerAt(s, v) && WorkerAt(s, w);
  }

  // Handler calls: at most one per sequence, each for a published sequence and
  // with the event its producer stored.
  lemma HandledExactlyOnce(s: State)
    requires Reachable(s)
    ensures forall i, j :: 0 <= i < j < |s.history.handled| ==>
              s.history.handled[i].sequence != s.history.handled[j].sequence
    ensures forall i :: 0 <= i < |s.history.handled| ==>
              var h := s.history.handled[i];
              h.sequence in s.history.published
              && (h.sequence in s.history.written ==> h.event == s.history.written[h.sequence])
  {
    ReachableInv(s);
    forall i | 0 <= i < |s.history.handled|
      ensures var h := s.history.handled[i];
              h.sequence in s.history.published
              && (h.sequence in s.history.written ==> h.event == s.history.written[h.sequence])
    {
      assert HandledAt(s, i);
    }
  }

  // No claimed event is lost: it has been handled, or a worker holds it.
  lemma ClaimedIsHandledOrHeld(s: State, x: int)
    requires Reachable(s) && 0 <= x <= s.work
    ensures (exists i :: 0 <= i < |s.history.handled| && s.history.handled[i].sequence == x)
            || (exists w :: 0 <= w < |s.workers| && Holds(s, w, x))
  {
    ReachableInv(s);
    if x !in s.history.processed {
      assert Holds(s, s.history.owner[x], x);
    }
  }

  // Successful producer claims are non-empty ranges that tile 0..cursor, and the
  // cursor is never more than the ring size above any gating sequence.
  lemma ClaimsTileTheSequence(s: State)
    requires Reachable(s)
    ensures Tiled(s.history.claims, s.cursor)
    ensures forall j :: 0 <= j < |Gating(s)| ==> s.cursor <= Gating(s)[j] + s.size
    ensures forall j :: 0 <= j < |Gating(s)| ==> s.gatingCache <= Gating(s)[j]
  {
    ReachableInv(s);
    assert forall j :: 0 <= j < |Gating(s)| ==> s.cursor - s.size <= Gating(s)[j];
  }

  // Tiled ranges are disjoint and cover exactly 0..cursor.
  lemma {:induction false} TilesPartition(claims: seq<Range>, cursor: int, x: int)
    requires Tiled(claims, cursor)
    ensures INITIAL <= cursor
    ensures 0 <= x <= cursor <==> exists i :: 0 <= i < |claims| && claims[i].lo <= x <= claims[i].hi
    ensures forall i :: 0 <= i < |claims| ==> 0 <= claims[i].lo <= claims[i].hi <= cursor
    ensures forall i, j :: 0 <= i < j < |claims| ==> claims[i].hi < claims[j].lo
    decreases |claims|
  {
    if claims != [] {
      var n := |claims| - 1;
      var init, last := claims[..n], claims[n];
      TilesPartition(init, last.lo - 1, x);
      if 0 <= x < last.lo {
        var i :| 0 <= i < n && init[i].lo <= x <= init[i].hi;
        assert claims[i] == init[i];
      }
      forall i | 0 <= i < n ensures 0 <= claims[i].lo <= claims[i].hi < last.lo {
        assert claims[i] == init[i];
      }
      forall i, j | 0 <= i < j < |claims| ensures claims[i].hi < claims[j].lo {
        if j < n { assert init[i].hi < init[j].lo; }
      }
    }
  }

  ghost predicate ClaimsFit(s: State) {
    forall i :: 0 <= i < |s.history.claims| ==> s.history.claims[i].hi - s.history.claims[i].lo < s.size
  }

  lemma StepClaimsFit(s: State, a: Action)
    requires Inv(s) && ClaimsFit(s) && Step(s, a).Some?
    ensures ClaimsFit(Step(s, a).value)
  {
    var t := Step(s, a).value;
    if a.CasCursor? && s.cursor == s.producers[a.p].pc.current {
      assert ProducerAt(s, a.p);
      assert t.history.claims[..|s.history.claims|] == s.history.claims;
    } else {
      assert t.history.claims == s.history.claims;
    }
  }

  lemma {:induction false} RunClaimsFit(s: State, run: seq<Action>)
    requires Inv(s) && ClaimsFit(s) && Run(s, run).Some?
    ensures ClaimsFit(Run(s, run).value)
    decreases |run|
  {
    if run != [] {
      var init := run[..|run| - 1];
      RunKeepsInv(s, init);
      RunClaimsFit(s, init);
      StepClaimsFit(Run(s, init).value, run[|run| - 1]);
    }
  }

  // A claim of more sequences than the ring has never succeeds.
  lemma ClaimsFitTheRing(s: State)
    requires Reachable(s)
    ensures ClaimsFit(s)
  {
    var entries: seq<int>, producers: nat, workers: nat, run :|
      |entries| > 0 && Run(Init(|entries|, entries, producers, workers), run) == Some(s);
    InitInv(entries, producers, workers);
    RunClaimsFit(Init(|entries|, entries, producers, workers), run);
  }

  // While a producer owns a sequence nobody else may touch its slot: whatever other
  // sequence ever claimed that slot has been handled, so no other producer owns it
  // and no worker holds it, inside a handler call or before.
  lemma SlotsAreExclusive(s: State, p: nat, x: int)
    requires Reachable(s) && p < |s.producers| && x in s.producers[p].pending
    ensures forall y :: 0 <= y <= s.cursor && y != x && Slot(s.size, y) == Slot(s.size, x) ==> y in s.history.processed
    ensures forall q, y :: 0 <= q < |s.producers| && y in s.producers[q].pending && (q, y) != (p, x) ==>
              Slot(s.size, y) != Slot(s.size, x)
    ensures forall w, y :: 0 <= w < |s.workers| && Holds(s, w, y) && y != x && y <= s.cursor ==>
              Slot(s.size, y) != Slot(s.size, x)
  {
    ReachableInv(s);
    PendingInWindow(s, p, x);
    assert PendingAt(s, p);
    forall y | 0 <= y <= s.cursor && y != x && Slot(s.size, y) == Slot(s.size, x)
      ensures y in s.history.processed
    {
      SlotMateIsHandled(s, x, y);
    }
    forall q, y | 0 <= q < |s.producers| && y in s.producers[q].pending && (q, y) != (p, x)
      ensures Slot(s.size, y) != Slot(s.size, x)
    {
      assert PendingAt(s, q);
      PendingInWindow(s, q, y);
      DistinctSlots(s, y, x);
    }
    forall w, y | 0 <= w < |s.workers| && Holds(s, w, y) && y != x && y <= s.cursor
      ensures Slot(s.size, y) != Slot(s.size, x)
    {
      assert WorkerAt(s, w);
    }
  }

  // Two claimed sequences of one slot are a ring apart, and the older is drained.
  lemma SlotMateIsHandled(s: State, x: int, y: int)
    requires Inv(s) && InWindow(s, x) && 0 <= y <= s.cursor && y != x && Slot(s.size, y) == Slot(s.size, x)
    ensures y in s.history.processed
  {
    if InWindow(s, y) { DistinctSlots(s, y, x); }
    BelowGatingIsDrained(s, s.cursor - s.size);
  }

  lemma HandlerInWindow(s: State, w: nat)
    requires Inv(s) && w < |s.workers| && s.workers[w].pc.Handle?
    ensures InWindow(s, s.workers[w].pc.next) && s.workers[w].pc.next in s.history.published
  {
    var n := s.workers[w].pc.next;
    assert Holds(s, w, n) && WorkerAt(s, w) && WorkerSees(s, w);
    assert Gating(s)[w] == s.progress[w];
  }

  // A worker inside a handler call sees the event its producer stored, at every
  // moment of the call.
  lemma HandlerSeesItsEvent(s: State, w: nat)
    requires Reachable(s) && w < |s.workers| && s.workers[w].pc.Handle?
    ensures var n := s.workers[w].pc.next;
            && n in s.history.published
            && (n in s.history.written ==> s.entries[Slot(s.size, n)] == s.history.written[n])
  {
    ReachableInv(s);
    HandlerInWindow(s, w);
  }

  lemma GatingBounds(s: State, j: nat)
    requires Inv(s) && j < |Gating(s)|
    ensures INITIAL <= Gating(s)[j] && s.cursor - s.size <= Gating(s)[j]
  {
    if j < |s.workers| { assert WorkerAt(s, j); }
  }

  // The cyclic flag array is the set of published sequences: exact for every
  // claimed sequence above some gating sequence, 32-bit lap numbers included.
  lemma FlagsRefinePublished(s: State, x: int, j: nat)
    requires Reachable(s) && j < |Gating(s)| && Gating(s)[j] < x <= s.cursor
    ensures 0 <= x && (IsAvailable(s, x) <==> x in s.history.published)
  {
    ReachableInv(s);
    GatingBounds(s, j);
    FlagTestExact(s, x);
  }

  // The scan for the highest published sequence reads one flag per action while
  // others publish.  Whatever it has passed is published, and each flag it reads is
  // exact at that moment.
  lemma ScanReadsExactly(s: State, w: nat)
    requires Reachable(s) && w < |s.workers| && s.workers[w].pc.Scan?
    ensures var me := s.workers[w].pc;
            && me.next <= me.at <= me.available + 1 && me.available <= s.cursor
            && (forall x :: me.next <= x < me.at ==> x in s.history.published)
            && (me.at <= me.available ==> (IsAvailable(s, me.at) <==> me.at in s.history.published))
  {
    ReachableInv(s);
    var me := s.workers[w].pc;
    assert WorkerAt(s, w) && WorkerSees(s, w) && Holds(s, w, me.next);
    assert Gating(s)[w] == s.progress[w];
    if me.at <= me.available { FlagsRefinePublished(s, me.at, w); }
  }

  // The bound it ends with is the end of the run: all up to it are published and,
  // below the limit, the next one was not when its flag was read.
  lemma ScanFindsTheRunEnd(s: State, w: nat)
    requires Reachable(s) && w < |s.workers| && s.workers[w].pc.Scan?
    ensures WorkerStep(s, w, ScanOne(w)).Some?
    ensures var t := WorkerStep(s, w, ScanOne(w)).value;
            t.workers[w].pc.Check? ==>
              EndsRun(t, s.workers[w].pc.next, s.workers[w].pc.available, t.workers[w].cached)
  {
    ScanReadsExactly(s, w);
    var me := s.workers[w].pc;
    ScanOneReads(s, w, me.next, me.available, me.at);
  }

  lemma ScanOneReads(s: State, w: nat, next: int, available: int, at: int)
    requires Shape(s) && w < |s.workers| && s.workers[w].pc == Scan(next, available, at)
    ensures WorkerStep(s, w, ScanOne(w)).Some?
    ensures var t := WorkerStep(s, w, ScanOne(w)).value;
            && t.history == s.history
            && (t.workers[w].pc.Check? ==>
                  if at > available then t.workers[w].cached == available
                  else !IsAvailable(s, at) && t.workers[w].cached == at - 1)
  {
  }

  // Bound r: all from lo to r are published and, below hi, the next one is not.
  ghost predicate EndsRun(s: State, lo: int, hi: int, r: int) {
    && lo - 1 <= r <= hi
    && (forall x :: lo <= x <= r ==> x in s.history.published)
    && (r < hi ==> r + 1 !in s.history.published)
  }

  // hasBacklog answering false over a running pool means everything up to the
  // cursor value it read has been handled.
  lemma DrainedCheckIsSound(s: State)
    requires Reachable(s) && s.observer.Answer? && s.observer.listed && !s.observer.backlog
    ensures forall x :: 0 <= x <= s.observer.cursor ==> x in s.history.processed
  {
    ReachableInv(s);
  }

  // Over a pool that is no longer running the list is empty and the answer is
  // false whatever is left in the ring.
  lemma HaltedPoolHidesBacklog()
    ensures exists s :: Reachable(s) && s.observer == Answer(0, false, false) && 0 !in s.history.processed
  {
    var run, s := OneClaim();
    var s0 := Init(1, [7], 1, 1);
    run, s := Extend(s0, run, s, HaltPool);
    run, s := Extend(s0, run, s, ObserveCursor);
    run, s := Extend(s0, run, s, ObserveList);
    assert |[7]| == 1;
    assert Reachable(s);
  }

  ghost predicate Drains(s: State)
    requires !s.observer.Off?
  {
    forall x :: 0 <= x <= s.observer.cursor ==> x in s.history.processed
  }

  // In any state, everything up to c has been handled exactly when c was claimed
  // from the work sequence and no worker still holds a sequence up to c.  This is
  // what makes an answer over an unlisted pool right or wrong.
  lemma DrainedIff(s: State, c: int)
    requires Reachable(s) && INITIAL <= c
    ensures Drained(s, c) <==>
            c <= s.work && forall w, n :: 0 <= w < |s.workers| && 0 <= n <= c ==> !Holds(s, w, n)
  {
    ReachableInv(s);
    if Drained(s, c) {
      if c >= 0 { assert c in s.history.processed; }
      forall w, n | 0 <= w < |s.workers| && 0 <= n <= c ensures !Holds(s, w, n) {
        assert WorkerAt(s, w);
      }
    } else {
      var x :| 0 <= x <= c && x !in s.history.processed;
      if c <= s.work {
        assert Holds(s, s.history.owner[x], x);
      }
    }
  }

  // The same for the answer the backlog check has given.
  lemma UnlistedAnswerIsRightIff(s: State)
    requires Reachable(s) && s.observer.Answer? && !s.observer.listed
    ensures !s.observer.backlog && INITIAL <= s.observer.cursor
    ensures Drains(s) <==>
            s.observer.cursor <= s.work &&
            forall w, n :: 0 <= w < |s.workers| && 0 <= n <= s.observer.cursor ==> !Holds(s, w, n)
  {
    ReachableInv(s);
    DrainedIff(s, s.observer.cursor);
  }

  // So the answer "no backlog" can be trusted exactly when the pool was running
  // when the list of its sequences was built.
  lemma NoBacklogIffListed(listed: bool)
    ensures (forall s :: Reachable(s) && s.observer.Answer? && s.observer.listed == listed && !s.observer.backlog ==>
                           Drains(s)) <==> listed
  {
    if listed {
      forall s | Reachable(s) && s.observer.Answer? && s.observer.listed && !s.observer.backlog
        ensures Drains(s)
      {
        DrainedCheckIsSound(s);
      }
    } else {
      HaltedPoolHidesBacklog();
      var s :| Reachable(s) && s.observer == Answer(0, false, false) && 0 !in s.history.processed;
      assert !Drains(s);
    }
  }

  lemma OneClaim() returns (run: seq<Action>, s: State)
    ensures Run(Init(1, [7], 1, 1), run) == Some(s)
    ensures s.cursor == 0 && s.history.processed == {} && s.observer == Off
  {
    var s0 := Init(1, [7], 1, 1);
    run, s := [], s0;
    run, s := Extend(s0, run, s, Begin(0, Next, 1));
    run, s := Extend(s0, run, s, LoadCursor(0));
    run, s := Extend(s0, run, s, LoadCache(0));
    run, s := Extend(s0, run, s, CasCursor(0));
  }

  // ---------- starting the pool ----------

  predicate ByProducer(a: Action) {
    a.Begin? || a.LoadCursor? || a.LoadCache? || a.SampleOne? || a.Decide? || a.CasCursor? || a.Write? || a.Publish?
  }

  predicate AllByProducers(run: seq<Action>) {
    forall k :: 0 <= k < |run| ==> ByProducer(run[k])
  }

  // Only producers have run so far.
  ghost predicate BeforeStart(s: State) {
    exists entries: seq<int>, producers: nat, workers: nat, run: seq<Action> ::
      |entries| > 0 && Run(Init(|entries|, entries, producers, workers), run) == Some(s) && AllByProducers(run)
  }

  // WorkerPool::start sets the work sequence and every worker sequence to the cursor.
  function Started(s: State): State {
    s.(work := s.cursor, progress := seq(|s.progress|, _ => s.cursor))
  }

  lemma {:induction false} ProducersLeaveThePool(s: State, run: seq<Action>)
    requires Shape(s) && Run(s, run).Some? && AllByProducers(run)
    ensures var t := Run(s, run).value;
            && t.work == s.work && t.progress == s.progress && t.workers == s.workers
            && t.history.processed == s.history.processed && t.history.handled == s.history.handled
    decreases |run|
  {
    if run != [] {
      var init := run[..|run| - 1];
      ProducersLeaveThePool(s, init);
      ProducerLeavesThePool(Run(s, init).value, run[|run| - 1]);
    }
  }

  lemma ProducerLeavesThePool(s: State, a: Action)
    requires Shape(s) && ByProducer(a) && Step(s, a).Some?
    ensures var t := Step(s, a).value;
            && t.work == s.work && t.progress == s.progress && t.workers == s.workers
            && t.history.processed == s.history.processed && t.history.handled == s.history.handled
  {
  }

  // Starting the pool is sound exactly when nothing was claimed before: otherwise
  // the gating sequences jump over events that nobody will handle.
  lemma StartIsSoundIffNothingClaimed(s: State)
    requires BeforeStart(s)
    ensures (forall x :: 0 <= x && BelowGating(Started(s), x) ==> x in Started(s).history.processed) <==>
            s.cursor == INITIAL
    ensures s.cursor == INITIAL ==> Started(s) == s
  {
    BeforeStartIdle(s);
    StartSkips(s);
  }

  // Nothing has been handled and every sequence of the pool is at its initial value.
  ghost predicate PoolIdle(s: State) {
    && s.work == INITIAL && s.progress == seq(|s.progress|, _ => INITIAL)
    && (forall w :: 0 <= w < |s.workers| ==> s.workers[w].pc == LoadWork)
    && s.history.processed == {} && s.history.handled == []
  }

  lemma BeforeStartIdle(s: State)
    requires BeforeStart(s)
    ensures Shape(s) && PoolIdle(s) && s.cursor >= INITIAL
  {
    var entries: seq<int>, producers: nat, workers: nat, run :|
      |entries| > 0 && Run(Init(|entries|, entries, producers, workers), run) == Some(s) && AllByProducers(run);
    ProducersLeaveThePool(Init(|entries|, entries, producers, workers), run);
    assert Reachable(s);
    CursorFloor(s);
  }

  lemma CursorFloor(s: State)
    requires Reachable(s)
    ensures s.cursor >= INITIAL
  {
    ClaimsTileTheSequence(s);
    TilesPartition(s.history.claims, s.cursor, 0);
  }

  lemma StartSkips(s: State)
    requires PoolIdle(s) && s.cursor >= INITIAL
    ensures (forall x :: 0 <= x && BelowGating(Started(s), x) ==> x in Started(s).history.processed) <==>
            s.cursor == INITIAL
    ensures s.cursor == INITIAL ==> Started(s) == s
  {
    var t := Started(s);
    assert forall j :: 0 <= j < |Gating(t)| ==> Gating(t)[j] == s.cursor;
    assert Gating(t)[|s.progress|] == s.cursor;
    if s.cursor >= 0 { assert BelowGating(t, 0); }
  }

  // Worker w deals with sequences above c only.
  ghost predicate Beyond(s: State, w: nat, c: int)
    requires w < |s.workers|
  {
    match s.workers[w].pc
    case LoadWork => true
    case Report(n) => n > c
    case Claim(n) => n > c
    case Check(n) => n > c
    case Wait(n) => n > c
    case Scan(n, _, _) => n > c
    case Handle(n) => n > c
    case Halted(n) => n > c
  }

  // The whole pool, and what it has handled, is above c.
  ghost predicate PoolBeyond(s: State, c: int) {
    && s.work >= c
    && (forall w :: 0 <= w < |s.workers| ==> Beyond(s, w, c))
    && (forall x :: x in s.history.processed ==> x > c)
    && (forall i :: 0 <= i < |s.history.handled| ==> s.history.handled[i].sequence > c)
  }

  predicate ByWorker(a: Action) {
    a.LoadWorkSequence? || a.StoreProgress? || a.CasWork? || a.CheckCached? || a.LoadAvailable? || a.ScanOne? ||
    a.Finish? || a.Leave?
  }

  lemma StepStaysBeyond(s: State, a: Action, c: int)
    requires Shape(s) && PoolBeyond(s, c) && Step(s, a).Some?
    ensures PoolBeyond(Step(s, a).value, c)
  {
    var t := Step(s, a).value;
    if ByWorker(a) {
      WorkerStaysBeyond(s, a.w, a, c);
    } else {
      assert t.workers == s.workers && t.work == s.work;
      assert t.history.processed == s.history.processed && t.history.handled == s.history.handled;
      assert forall w :: 0 <= w < |t.workers| ==> Beyond(s, w, c) ==> Beyond(t, w, c);
    }
  }

  lemma WorkerStaysBeyond(s: State, w: nat, a: Action, c: int)
    requires Shape(s) && PoolBeyond(s, c) && w < |s.workers| && WorkerStep(s, w, a).Some?
    ensures PoolBeyond(WorkerStep(s, w, a).value, c)
  {
    var t := WorkerStep(s, w, a).value;
    assert Beyond(s, w, c);
    forall v | 0 <= v < |t.workers| ensures Beyond(t, v, c) {
      assert Beyond(s, v, c);
    }
  }

  lemma {:induction false} RunStaysBeyond(s: State, run: seq<Action>, c: int)
    requires Shape(s) && PoolBeyond(s, c) && Run(s, run).Some?
    ensures PoolBeyond(Run(s, run).value, c)
    decreases |run|
  {
    if run != [] {
      var init := run[..|run| - 1];
      RunStaysBeyond(s, init, c);
      StepStaysBeyond(Run(s, init).value, run[|run| - 1], c);
    }
  }

  // Whatever was claimed before the start is handled in no run after it.
  lemma ClaimedBeforeStartIsSkipped(s: State, run: seq<Action>, x: int)
    requires BeforeStart(s) && 0 <= x <= s.cursor
    ensures Shape(Started(s))
    ensures Run(Started(s), run).Some? ==>
              var t := Run(Started(s), run).value;
              x !in t.history.processed &&
              forall i :: 0 <= i < |t.history.handled| ==> t.history.handled[i].sequence != x
  {
    BeforeStartIdle(s);
    assert PoolBeyond(Started(s), s.cursor);
    if Run(Started(s), run).Some? { RunStaysBeyond(Started(s), run, s.cursor); }
  }

  lemma Extend(s0: State, run: seq<Action>, s: State, a: Action) returns (run': seq<Action>, t: State)
    requires Shape(s0) && Run(s0, run) == Some(s) && Step(s, a).Some?
    ensures Run(s0, run') == Some(t) && Step(s, a) == Some(t)
  {
    run', t := run + [a], Step(s, a).value;
    assert run'[..|run|] == run;
  }
}
