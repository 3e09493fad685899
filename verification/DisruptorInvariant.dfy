// What every action of the ring keeps: the invariant, part by part.
module DisruptorInvariant {
  import opened Options
  import opened Arith
  import opened DisruptorProtocol

  // m is at or below every gating sequence.
  ghost predicate BelowGating(s: State, m: int) {
    forall j :: 0 <= j < |Gating(s)| ==> m <= Gating(s)[j]
  }

  // m is at or below the first `at` gating sequences.
  ghost predicate BelowFirst(s: State, m: int, at: int) {
    forall j :: 0 <= j < at && j < |Gating(s)| ==> m <= Gating(s)[j]
  }

  // Every sequence up to m has been handled.
  ghost predicate Drained(s: State, m: int) {
    forall x :: 0 <= x <= m ==> x in s.history.processed
  }

  // Worker w has claimed `next` and not finished it.
  ghost predicate Holds(s: State, w: nat, next: int)
    requires w < |s.workers|
  {
    match s.workers[w].pc
    case Check(n) => n == next
    case Wait(n) => n == next
    case Scan(n, _, _) => n == next
    case Handle(n) => n == next
    case Halted(n) => n == next
    case _ => false
  }

  // A worker's own sequence is one below what it holds, and never above the
  // work sequence.
  ghost predicate WorkerAt(s: State, w: nat)
    requires Shape(s) && w < |s.workers|
  {
    && INITIAL <= s.progress[w] <= s.work
    && (forall n :: Holds(s, w, n) ==>
          s.progress[w] == n - 1 && n in s.history.owner && s.history.owner[n] == w && n !in s.history.processed)
    && match s.workers[w].pc
       case Report(n) => s.progress[w] <= n - 1 <= s.work
       case Claim(n) => s.progress[w] == n - 1
       case _ => true
  }

  ghost predicate WorkInv(s: State)
    requires Shape(s)
  {
    && (forall w :: 0 <= w < |s.workers| ==> WorkerAt(s, w))
    && INITIAL <= s.work
    && (forall x :: x in s.history.owner <==> 0 <= x <= s.work)
    && (forall x :: x in s.history.processed ==> x in s.history.owner)
    && (forall x :: x in s.history.owner ==> s.history.owner[x] < |s.workers|)
    && (forall x :: x in s.history.owner && x !in s.history.processed ==> Holds(s, s.history.owner[x], x))
  }

  // What worker w trusts without looking again is published.
  ghost predicate WorkerSees(s: State, w: nat)
    requires Shape(s) && w < |s.workers|
  {
    && (forall x :: s.progress[w] < x <= s.workers[w].cached ==> x in s.history.published)
    && match s.workers[w].pc
       case Scan(n, available, at) =>
         && n <= at <= available + 1 && available <= s.cursor
         && forall x :: n <= x < at ==> x in s.history.published
       case Handle(n) => n in s.history.published
       case _ => true
  }

  ghost predicate SeenInv(s: State)
    requires Shape(s)
  {
    && (forall w :: 0 <= w < |s.workers| ==> WorkerSees(s, w))
    && (forall x :: x in s.history.processed ==> x in s.history.published)
  }

  ghost predicate PendingAt(s: State, p: nat)
    requires p < |s.producers|
  {
    forall x :: x in s.producers[p].pending <==>
                  x in s.history.claimer && s.history.claimer[x] == p && x !in s.history.published
  }

  // Claims tile 0..cursor, and a claimed sequence is pending with its claimer
  // until it is published.
  ghost predicate ClaimInv(s: State) {
    && INITIAL <= s.cursor
    && (forall x :: x in s.history.claimer <==> 0 <= x <= s.cursor)
    && (forall x :: x in s.history.published ==> x in s.history.claimer)
    && (forall x :: x in s.history.claimer ==> s.history.claimer[x] < |s.producers|)
    && (forall x :: x in s.history.written ==> x in s.history.claimer)
    && (forall p :: 0 <= p < |s.producers| ==> PendingAt(s, p))
    && Tiled(s.history.claims, s.cursor)
  }

  // Non-empty ranges, end to end from 0 to the cursor.
  ghost predicate Tiled(claims: seq<Range>, cursor: int)
    decreases |claims|
  {
    if claims == [] then cursor == INITIAL
    else
      var last := claims[|claims| - 1];
      last.lo <= last.hi == cursor && Tiled(claims[..|claims| - 1], last.lo - 1)
  }

  ghost predicate ProducerAt(s: State, p: nat)
    requires p < |s.producers|
  {
    match s.producers[p].pc
    case Idle => true
    case ReadCursor(_, n) => n >= 1
    case ReadCache(_, n, current) => n >= 1
    case Sample(_, n, current, at, min) => n >= 1 && at <= |Gating(s)| && min <= current && BelowFirst(s, min, at)
    case Cas(_, n, current) => n >= 1 && BelowGating(s, current + n - s.size) && n <= s.size
  }

  ghost predicate GateInv(s: State) {
    && BelowGating(s, s.gatingCache)
    && BelowGating(s, s.cursor - s.size)
    && forall p :: 0 <= p < |s.producers| ==> ProducerAt(s, p)
  }

  // Sequences of the current window; negative ones stand for the initial lap.
  ghost predicate InWindow(s: State, x: int) {
    s.cursor - s.size < x <= s.cursor
  }

  ghost predicate FlagInv(s: State)
    requires Shape(s)
  {
    forall x :: InWindow(s, x) ==>
      s.flags[Slot(s.size, x)] ==
        Flag(s.size, if x < 0 || x in s.history.published then x else x - s.size)
  }

  ghost predicate EntryInv(s: State)
    requires Shape(s)
  {
    forall x :: InWindow(s, x) && x in s.history.written ==>
      s.entries[Slot(s.size, x)] == s.history.written[x]
  }

  ghost predicate HandledInv(s: State) {
    && (forall i :: 0 <= i < |s.history.handled| ==> HandledAt(s, i))
    && (forall i, j :: 0 <= i < j < |s.history.handled| ==>
          s.history.handled[i].sequence != s.history.handled[j].sequence)
    && (forall x :: x in s.history.processed ==>
          exists i :: 0 <= i < |s.history.handled| && s.history.handled[i].sequence == x)
  }

  ghost predicate HandledAt(s: State, i: int)
    requires 0 <= i < |s.history.handled|
  {
    var h := s.history.handled[i];
    && h.sequence in s.history.processed
    && h.sequence in s.history.owner && s.history.owner[h.sequence] == h.worker
    && (h.sequence in s.history.written ==> h.event == s.history.written[h.sequence])
  }

  ghost predicate ObserverInv(s: State) {
    match s.observer
    case Off => true
    case GotCursor(cursor) => INITIAL <= cursor
    case Scanning(cursor, at) => INITIAL <= cursor && BelowFirst(s, cursor, at)
    case Answer(cursor, backlog, listed) =>
      INITIAL <= cursor && (listed && !backlog ==> Drained(s, cursor)) && (!listed ==> !backlog)
  }

  ghost predicate Inv(s: State) {
    && Shape(s)
    && WorkInv(s)
    && SeenInv(s)
    && ClaimInv(s)
    && GateInv(s)
    && FlagInv(s)
    && EntryInv(s)
    && HandledInv(s)
    && ObserverInv(s)
  }

  // The heart of the gating argument: below every gating sequence nothing is
  // still claimed by a worker, because a worker's own sequence stays one below
  // whatever it holds.
  lemma BelowGatingIsDrained(s: State, m: int)
    requires Shape(s) && WorkInv(s) && BelowGating(s, m)
    ensures Drained(s, m)
  {
    forall x | 0 <= x <= m ensures x in s.history.processed {
      assert Gating(s)[|s.progress|] == s.work;
      var w := s.history.owner[x];
      assert Gating(s)[w] == s.progress[w] && WorkerAt(s, w);
    }
  }

  // Gating sequences only grow, so what was below them stays below.
  ghost predicate GatingGrows(s: State, t: State) {
    && |Gating(s)| == |Gating(t)|
    && forall j :: 0 <= j < |Gating(s)| ==> Gating(s)[j] <= Gating(t)[j]
  }

  // An unpublished claimed sequence lies in the window.
  lemma PendingInWindow(s: State, p: nat, x: int)
    requires Inv(s) && p < |s.producers| && x in s.producers[p].pending
    ensures InWindow(s, x) && 0 <= x
  {
    assert PendingAt(s, p);
    BelowGatingIsDrained(s, s.cursor - s.size);
  }

  lemma DistinctSlots(s: State, x: int, y: int)
    requires 0 < s.size && InWindow(s, x) && InWindow(s, y) && x != y
    ensures Slot(s.size, x) != Slot(s.size, y)
  {
    if Slot(s.size, x) == Slot(s.size, y) {
      if x <= y { SameRemainder(x, y, s.size); } else { SameRemainder(y, x, s.size); }
    }
  }
}
