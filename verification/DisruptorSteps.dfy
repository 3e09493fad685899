// Each action of the ring keeps the invariant.
module DisruptorSteps {
  import opened Options
  import opened Arith
  import opened DisruptorProtocol
  import opened DisruptorInvariant

  // ---------- what an action leaves alone ----------

  // No worker moved; more may have been claimed and published.
  lemma WorkersUntouched(s: State, t: State)
    requires Inv(s) && Shape(t)
    requires t.workers == s.workers && t.progress == s.progress && t.work == s.work && s.cursor <= t.cursor
    requires t.history.owner == s.history.owner && t.history.processed == s.history.processed
    requires s.history.published <= t.history.published
    ensures WorkInv(t) && SeenInv(t)
  {
    forall w | 0 <= w < |t.workers| ensures WorkerAt(t, w) && WorkerSees(t, w) {
      assert WorkerAt(s, w) && WorkerSees(s, w);
      assert forall n :: Holds(t, w, n) ==> Holds(s, w, n);
    }
    forall x | x in t.history.owner && x !in t.history.processed ensures Holds(t, t.history.owner[x], x) {
      assert Holds(s, s.history.owner[x], x);
    }
  }

  // No handler call was completed.
  lemma LogUntouched(s: State, t: State)
    requires HandledInv(s)
    requires t.history.handled == s.history.handled && t.history.processed == s.history.processed
    requires forall x :: x in s.history.owner && x in s.history.processed ==>
               x in t.history.owner && t.history.owner[x] == s.history.owner[x]
    requires forall x :: x in t.history.written && x in s.history.processed ==>
               x in s.history.written && t.history.written[x] == s.history.written[x]
    ensures HandledInv(t)
  {
    forall i | 0 <= i < |t.history.handled| ensures HandledAt(t, i) {
      assert HandledAt(s, i);
    }
  }

  // No producer moved; gating sequences may have grown.
  lemma ProducersUntouched(s: State, t: State)
    requires Inv(s) && Shape(t) && GatingGrows(s, t)
    requires t.size == s.size && t.cursor == s.cursor && t.gatingCache == s.gatingCache
    requires t.flags == s.flags && t.entries == s.entries && t.producers == s.producers
    requires t.history.claims == s.history.claims && t.history.claimer == s.history.claimer
    requires t.history.published == s.history.published && t.history.written == s.history.written
    ensures ClaimInv(t) && GateInv(t) && FlagInv(t) && EntryInv(t)
  {
    forall q | 0 <= q < |t.producers| ensures ProducerAt(t, q) && PendingAt(t, q) {
      assert ProducerAt(s, q) && PendingAt(s, q);
    }
    forall x | InWindow(t, x) ensures InWindow(s, x) { }
  }

  // ---------- producers ----------

  // Actions that move one producer's program counter, and possibly the gating
  // cache, and nothing else.
  lemma ProducerMoves(s: State, t: State, p: nat, pc: ProducerPc, cache: int)
    requires Inv(s) && p < |s.producers|
    requires t == SetProducer(s, p, pc).(gatingCache := cache)
    requires ProducerAt(t, p) && BelowGating(s, cache)
    ensures Inv(t)
  {
    assert Gating(t) == Gating(s);
    WorkersUntouched(s, t);
    LogUntouched(s, t);
    forall q | 0 <= q < |t.producers| ensures ProducerAt(t, q) && PendingAt(t, q) {
      assert ProducerAt(s, q) && PendingAt(s, q);
    }
    forall x | InWindow(t, x) ensures InWindow(s, x) { }
  }

  lemma LowerIsBelow(s: State, m: int, k: int)
    requires BelowGating(s, m)
    ensures k <= m ==> BelowGating(s, k)
  {
  }

  lemma ClaimStepKeepsInv(s: State, p: nat, a: Action)
    requires Inv(s) && p < |s.producers|
    requires a.Begin? || a.LoadCursor? || a.LoadCache? || a.SampleOne? || a.Decide?
    requires ProducerStep(s, p, a).Some?
    ensures Inv(ProducerStep(s, p, a).value)
  {
    var t := ProducerStep(s, p, a).value;
    assert ProducerAt(s, p);
    if t != s {
      assert Gating(t) == Gating(s);
      var me := s.producers[p].pc;
      if me.ReadCache? {
        LowerIsBelow(s, s.gatingCache, me.current + me.count - s.size);
      } else if me.Sample? && me.at == |Gating(s)| {
        assert BelowGating(s, me.min);
        LowerIsBelow(s, me.min, me.current + me.count - s.size);
      }
      ProducerMoves(s, t, p, t.producers[p].pc, t.gatingCache);
    }
  }

  // A successful compare-and-set of the cursor moves the window forward over
  // sequences that are all handled, hence published.
  lemma CasCursorKeepsInv(s: State, p: nat)
    requires Inv(s) && p < |s.producers|
    requires ProducerStep(s, p, CasCursor(p)).Some?
    ensures Inv(ProducerStep(s, p, CasCursor(p)).value)
  {
    var t := ProducerStep(s, p, CasCursor(p)).value;
    assert ProducerAt(s, p);
    if s.cursor != s.producers[p].pc.current {
      ProducerMoves(s, t, p, t.producers[p].pc, t.gatingCache);
    } else {
      WorkersUntouched(s, t);
      LogUntouched(s, t);
      CasCursorClaims(s, t, p);
      CasCursorWindow(s, t, p);
      assert Gating(t) == Gating(s);
    }
  }

  lemma CasCursorClaims(s: State, t: State, p: nat)
    requires Inv(s) && p < |s.producers| && s.producers[p].pc.Cas?
    requires s.cursor == s.producers[p].pc.current && ProducerStep(s, p, CasCursor(p)) == Some(t)
    ensures ClaimInv(t) && GateInv(t)
  {
    assert ProducerAt(s, p) && Gating(t) == Gating(s);
    forall q | 0 <= q < |t.producers| ensures ProducerAt(t, q) && PendingAt(t, q) {
      assert ProducerAt(s, q) && PendingAt(s, q);
    }
  }

  lemma CasCursorWindow(s: State, t: State, p: nat)
    requires Inv(s) && p < |s.producers| && s.producers[p].pc.Cas?
    requires s.cursor == s.producers[p].pc.current && ProducerStep(s, p, CasCursor(p)) == Some(t)
    ensures FlagInv(t) && EntryInv(t)
  {
    assert ProducerAt(s, p);
    BelowGatingIsDrained(s, t.cursor - s.size);
    forall x | InWindow(t, x)
      ensures t.flags[Slot(t.size, x)] ==
              Flag(t.size, if x < 0 || x in t.history.published then x else x - t.size)
    {
      if x > s.cursor {
        var y := x - s.size;
        assert InWindow(s, y);
        assert y < 0 || y in s.history.processed;
        DivModShift(y, s.size, 1);
      } else {
        assert InWindow(s, x);
      }
    }
    forall x | InWindow(t, x) && x in t.history.written ensures InWindow(s, x) { }
  }

  // A producer stores only into a slot of the window that is its own.
  lemma WriteKeepsInv(s: State, p: nat, sequence: int, event: int)
    requires Inv(s) && p < |s.producers|
    requires ProducerStep(s, p, Write(p, sequence, event)).Some?
    ensures Inv(ProducerStep(s, p, Write(p, sequence, event)).value)
  {
    var t := ProducerStep(s, p, Write(p, sequence, event)).value;
    assert Gating(t) == Gating(s);
    PendingInWindow(s, p, sequence);
    assert PendingAt(s, p);
    WorkersUntouched(s, t);
    LogUntouched(s, t);
    forall q | 0 <= q < |t.producers| ensures ProducerAt(t, q) && PendingAt(t, q) {
      assert ProducerAt(s, q) && PendingAt(s, q);
    }
    forall x | InWindow(t, x) ensures InWindow(s, x) { }
    forall x | InWindow(t, x) && x in t.history.written
      ensures t.entries[Slot(t.size, x)] == t.history.written[x]
    {
      if x != sequence { DistinctSlots(s, x, sequence); }
    }
  }

  lemma PublishKeepsInv(s: State, p: nat, sequence: int)
    requires Inv(s) && p < |s.producers|
    requires ProducerStep(s, p, Publish(p, sequence)).Some?
    ensures Inv(ProducerStep(s, p, Publish(p, sequence)).value)
  {
    var t := ProducerStep(s, p, Publish(p, sequence)).value;
    assert Gating(t) == Gating(s);
    WorkersUntouched(s, t);
    LogUntouched(s, t);
    PublishClaims(s, t, p, sequence);
    PublishWindow(s, t, p, sequence);
  }

  lemma PublishClaims(s: State, t: State, p: nat, sequence: int)
    requires Inv(s) && p < |s.producers| && ProducerStep(s, p, Publish(p, sequence)) == Some(t)
    ensures ClaimInv(t) && GateInv(t)
  {
    assert PendingAt(s, p);
    assert Gating(t) == Gating(s);
    forall q | 0 <= q < |t.producers| ensures ProducerAt(t, q) && PendingAt(t, q) {
      assert ProducerAt(s, q) && PendingAt(s, q);
    }
  }

  lemma PublishWindow(s: State, t: State, p: nat, sequence: int)
    requires Inv(s) && p < |s.producers| && ProducerStep(s, p, Publish(p, sequence)) == Some(t)
    ensures FlagInv(t) && EntryInv(t)
  {
    PendingInWindow(s, p, sequence);
    forall x | InWindow(t, x)
      ensures InWindow(s, x)
      ensures t.flags[Slot(t.size, x)] ==
              Flag(t.size, if x < 0 || x in t.history.published then x else x - t.size)
    {
      assert InWindow(s, x);
      if x != sequence { DistinctSlots(s, x, sequence); }
    }
  }

  // ---------- workers ----------

  // Actions that move one worker's local state and nothing else.
  lemma WorkerMoves(s: State, t: State, w: nat, me: Worker)
    requires Inv(s) && w < |s.workers|
    requires t == s.(workers := s.workers[w := me])
    requires WorkerAt(t, w) && WorkerSees(t, w)
    requires forall n :: Holds(s, w, n) ==> Holds(t, w, n)
    ensures Inv(t)
  {
    ProducersUntouched(s, t);
    LogUntouched(s, t);
    forall v | 0 <= v < |t.workers| ensures WorkerAt(t, v) && WorkerSees(t, v) {
      assert WorkerAt(s, v) && WorkerSees(s, v);
      assert v != w ==> forall n :: Holds(t, v, n) ==> Holds(s, v, n);
    }
    forall x | x in t.history.owner && x !in t.history.processed ensures Holds(t, t.history.owner[x], x) {
      assert Holds(s, s.history.owner[x], x);
    }
    assert Gating(t) == Gating(s);
  }

  lemma WaitStepKeepsInv(s: State, w: nat, a: Action)
    requires Inv(s) && w < |s.workers|
    requires a.LoadWorkSequence? || a.CheckCached? || a.LoadAvailable? || a.Leave?
    requires WorkerStep(s, w, a).Some?
    ensures Inv(WorkerStep(s, w, a).value)
  {
    var t := WorkerStep(s, w, a).value;
    assert WorkerAt(s, w) && WorkerSees(s, w);
    if !a.LoadWorkSequence? {
      assert Holds(s, w, s.workers[w].pc.next);
    }
    assert WorkerSees(t, w);
    assert forall n :: Holds(s, w, n) == Holds(t, w, n);
    WorkerMoves(s, t, w, t.workers[w]);
  }

  // The flag test is exact on every claimed sequence of the window.
  lemma FlagTestExact(s: State, x: int)
    requires Inv(s) && InWindow(s, x) && 0 <= x
    ensures IsAvailable(s, x) <==> x in s.history.published
  {
    DivModShift(x, s.size, -1);
    assert x - s.size == x + -1 * s.size;
  }

  lemma ScanKeepsInv(s: State, w: nat)
    requires Inv(s) && w < |s.workers|
    requires WorkerStep(s, w, ScanOne(w)).Some?
    ensures Inv(WorkerStep(s, w, ScanOne(w)).value)
  {
    var t := WorkerStep(s, w, ScanOne(w)).value;
    var me := s.workers[w].pc;
    assert Holds(s, w, me.next) && WorkerAt(s, w) && WorkerSees(s, w);
    assert Gating(s)[w] == s.progress[w];
    if me.at <= me.available {
      FlagTestExact(s, me.at);
    }
    assert WorkerSees(t, w);
    assert forall n :: Holds(s, w, n) == Holds(t, w, n);
    WorkerMoves(s, t, w, t.workers[w]);
  }

  lemma StoreProgressKeepsInv(s: State, w: nat)
    requires Inv(s) && w < |s.workers|
    requires WorkerStep(s, w, StoreProgress(w)).Some?
    ensures Inv(WorkerStep(s, w, StoreProgress(w)).value)
  {
    var t := WorkerStep(s, w, StoreProgress(w)).value;
    assert WorkerAt(s, w);
    assert GatingGrows(s, t);
    ProducersUntouched(s, t);
    LogUntouched(s, t);
    StoreProgressOwns(s, t, w);
  }

  lemma StoreProgressOwns(s: State, t: State, w: nat)
    requires Inv(s) && w < |s.workers| && WorkerStep(s, w, StoreProgress(w)) == Some(t)
    ensures WorkInv(t) && SeenInv(t)
  {
    assert WorkerAt(s, w) && WorkerSees(s, w);
    forall v | 0 <= v < |t.workers| ensures WorkerAt(t, v) && WorkerSees(t, v) {
      assert WorkerAt(s, v) && WorkerSees(s, v);
      assert forall n :: Holds(t, v, n) ==> Holds(s, v, n);
    }
    forall x | x in t.history.owner && x !in t.history.processed ensures Holds(t, t.history.owner[x], x) {
      assert Holds(s, s.history.owner[x], x);
    }
  }

  lemma CasWorkKeepsInv(s: State, w: nat)
    requires Inv(s) && w < |s.workers|
    requires WorkerStep(s, w, CasWork(w)).Some?
    ensures Inv(WorkerStep(s, w, CasWork(w)).value)
  {
    var t := WorkerStep(s, w, CasWork(w)).value;
    assert WorkerAt(s, w) && WorkerSees(s, w);
    if s.work != s.workers[w].pc.next - 1 {
      assert forall n :: !Holds(s, w, n);
      WorkerMoves(s, t, w, t.workers[w]);
    } else {
      assert GatingGrows(s, t);
      ProducersUntouched(s, t);
      LogUntouched(s, t);
      CasWorkOwns(s, t, w);
    }
  }

  lemma CasWorkOwns(s: State, t: State, w: nat)
    requires Inv(s) && w < |s.workers| && WorkerStep(s, w, CasWork(w)) == Some(t)
    requires s.work == s.workers[w].pc.next - 1
    ensures WorkInv(t) && SeenInv(t)
  {
    forall v | 0 <= v < |t.workers| ensures WorkerAt(t, v) && WorkerSees(t, v) {
      CasWorkWorker(s, t, w, v);
    }
    forall x | x in t.history.owner && x !in t.history.processed ensures Holds(t, t.history.owner[x], x) {
      if x != t.work { assert Holds(s, s.history.owner[x], x); }
    }
  }

  lemma CasWorkWorker(s: State, t: State, w: nat, v: nat)
    requires Inv(s) && w < |s.workers| && v < |s.workers| && WorkerStep(s, w, CasWork(w)) == Some(t)
    requires s.work == s.workers[w].pc.next - 1
    ensures WorkerAt(t, v) && WorkerSees(t, v)
  {
    assert WorkerAt(s, v) && WorkerSees(s, v);
    if v != w {
      assert t.workers[v] == s.workers[v] && t.progress[v] == s.progress[v];
      assert forall n :: Holds(t, v, n) ==> Holds(s, v, n);
    }
  }

  lemma FinishKeepsInv(s: State, w: nat)
    requires Inv(s) && w < |s.workers|
    requires WorkerStep(s, w, Finish(w)).Some?
    ensures Inv(WorkerStep(s, w, Finish(w)).value)
  {
    var t := WorkerStep(s, w, Finish(w)).value;
    assert Gating(t) == Gating(s);
    ProducersUntouched(s, t);
    FinishOwns(s, t, w);
    FinishLog(s, t, w);
  }

  lemma FinishOwns(s: State, t: State, w: nat)
    requires Inv(s) && w < |s.workers| && WorkerStep(s, w, Finish(w)) == Some(t)
    ensures WorkInv(t) && SeenInv(t)
  {
    var next := s.workers[w].pc.next;
    assert Holds(s, w, next) && WorkerAt(s, w) && WorkerSees(s, w);
    forall v | 0 <= v < |t.workers| ensures WorkerAt(t, v) && WorkerSees(t, v) {
      assert WorkerAt(s, v) && WorkerSees(s, v);
      assert forall n :: Holds(t, v, n) ==> v != w && Holds(s, v, n);
    }
    forall x | x in t.history.owner && x !in t.history.processed ensures Holds(t, t.history.owner[x], x) {
      assert Holds(s, s.history.owner[x], x);
    }
  }

  lemma FinishLog(s: State, t: State, w: nat)
    requires Inv(s) && w < |s.workers| && WorkerStep(s, w, Finish(w)) == Some(t)
    ensures HandledInv(t)
  {
    var next := s.workers[w].pc.next;
    assert Holds(s, w, next) && WorkerAt(s, w) && WorkerSees(s, w) && Gating(s)[w] == s.progress[w];
    assert InWindow(s, next);
    var n := |s.history.handled|;
    forall i | 0 <= i < |t.history.handled| ensures HandledAt(t, i) {
      if i < n { assert HandledAt(s, i); }
    }
    forall i, j | 0 <= i < j < |t.history.handled|
      ensures t.history.handled[i].sequence != t.history.handled[j].sequence
    {
      if j == n { assert HandledAt(s, i); }
    }
    forall x | x in t.history.processed
      ensures exists i :: 0 <= i < |t.history.handled| && t.history.handled[i].sequence == x
    {
      if x == next {
        assert t.history.handled[n].sequence == x;
      } else {
        var i :| 0 <= i < n && s.history.handled[i].sequence == x;
        assert t.history.handled[i].sequence == x;
      }
    }
  }

  // ---------- the pool flag and the observer ----------

  lemma ObserverMoves(s: State, t: State)
    requires Inv(s) && t == s.(observer := t.observer, running := t.running) && ObserverInv(t)
    ensures Inv(t)
  {
    WorkersUntouched(s, t);
    LogUntouched(s, t);
    ProducersUntouched(s, t);
  }

  lemma ObserverStepKeepsInv(s: State, a: Action)
    requires Inv(s) && ObserverStep(s, a).Some?
    ensures Inv(ObserverStep(s, a).value)
  {
    var t := ObserverStep(s, a).value;
    assert Gating(t) == Gating(s);
    if s.observer.Scanning? && s.observer.at >= |Gating(s)| {
      assert BelowGating(s, s.observer.cursor);
      BelowGatingIsDrained(s, s.observer.cursor);
    }
    ObserverMoves(s, t);
  }

  lemma StepKeepsInv(s: State, a: Action)
    requires Inv(s) && Step(s, a).Some?
    ensures Inv(Step(s, a).value)
  {
    match a
    case Begin(p, _, _) => ClaimStepKeepsInv(s, p, a);
    case LoadCursor(p) => ClaimStepKeepsInv(s, p, a);
    case LoadCache(p) => ClaimStepKeepsInv(s, p, a);
    case SampleOne(p) => ClaimStepKeepsInv(s, p, a);
    case Decide(p) => ClaimStepKeepsInv(s, p, a);
    case CasCursor(p) => CasCursorKeepsInv(s, p);
    case Write(p, sequence, event) => WriteKeepsInv(s, p, sequence, event);
    case Publish(p, sequence) => PublishKeepsInv(s, p, sequence);
    case LoadWorkSequence(w) => WaitStepKeepsInv(s, w, a);
    case StoreProgress(w) => StoreProgressKeepsInv(s, w);
    case CasWork(w) => CasWorkKeepsInv(s, w);
    case CheckCached(w) => WaitStepKeepsInv(s, w, a);
    case LoadAvailable(w) => WaitStepKeepsInv(s, w, a);
    case ScanOne(w) => ScanKeepsInv(s, w);
    case Finish(w) => FinishKeepsInv(s, w);
    case Leave(w) => WaitStepKeepsInv(s, w, a);
    case _ => ObserverStepKeepsInv(s, a);
  }
}
