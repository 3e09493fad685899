// When a claim is granted, when the backlog check reports a backlog, and that a
// worker with a published sequence gets to its handler: what the ring may not refuse.
module DisruptorProgress {
  import opened Options
  import opened Arith
  import opened DisruptorProtocol
  import opened DisruptorInvariant
  import opened DisruptorSteps
  import opened DisruptorSafety

  // ---------- gating sequences only grow ----------

  lemma StepGatingGrows(s: State, a: Action)
    requires Inv(s) && Step(s, a).Some?
    ensures GatingGrows(s, Step(s, a).value)
  {
    var t := Step(s, a).value;
    if a.StoreProgress? {
      assert WorkerAt(s, a.w);
    } else {
      assert t.progress == s.progress;
    }
  }

  lemma {:induction false} RunGatingGrows(s: State, run: seq<Action>)
    requires Inv(s) && Run(s, run).Some?
    ensures GatingGrows(s, Run(s, run).value)
    decreases |run|
  {
    if run != [] {
      var init := run[..|run| - 1];
      RunGatingGrows(s, init);
      RunKeepsInv(s, init);
      StepGatingGrows(Run(s, init).value, run[|run| - 1]);
    }
  }

  lemma {:induction false} PrefixRuns(s: State, run: seq<Action>, i: nat)
    requires Shape(s) && Run(s, run).Some? && i <= |run|
    ensures Run(s, run[..i]).Some?
    decreases |run|
  {
    if i < |run| {
      var init := run[..|run| - 1];
      assert init[..i] == run[..i];
      PrefixRuns(s, init, i);
    } else {
      assert run[..i] == run;
    }
  }

  // ---------- when a claim is granted ----------

  // Producer p has not decided, nor tried the cursor, during the run.
  ghost predicate Undecided(run: seq<Action>, p: nat) {
    forall k :: 0 <= k < |run| ==> run[k] != Decide(p) && run[k] != CasCursor(p)
  }

  // Action i of the run is producer p sampling a gating sequence below w.
  ghost predicate SamplesBelow(s: State, run: seq<Action>, i: nat, p: nat, w: int)
    requires Shape(s) && i < |run|
  {
    && run[i] == SampleOne(p) && Run(s, run[..i]).Some?
    && var u := Run(s, run[..i]).value;
       && p < |u.producers| && u.producers[p].pc.Sample?
       && u.producers[p].pc.at < |Gating(u)| && Gating(u)[u.producers[p].pc.at] < w
  }

  ghost predicate SampledBelow(s: State, run: seq<Action>, p: nat, w: int)
    requires Shape(s)
  {
    exists i: nat :: i < |run| && SamplesBelow(s, run, i, p, w)
  }

  lemma SampledBelowNext(s: State, run: seq<Action>, p: nat, w: int)
    requires Shape(s) && run != []
    ensures SampledBelow(s, run, p, w) <==>
            SampledBelow(s, run[..|run| - 1], p, w) || SamplesBelow(s, run, |run| - 1, p, w)
  {
    var init := run[..|run| - 1];
    forall i: nat | i < |init|
      ensures SamplesBelow(s, run, i, p, w) <==> SamplesBelow(s, init, i, p, w)
    {
      assert init[..i] == run[..i];
    }
  }

  // Where an attempt stands that began by loading the cache: its running minimum is
  // below w exactly when the cursor it read is, or something it sampled.
  ghost predicate Tracks(pc: ProducerPc, call: Call, n: int, current: int, w: int, below: bool) {
    match pc
    case ReadCache(c, m, cur) => c == call && m == n && cur == current && !below
    case Sample(c, m, cur, _, min) =>
      c == call && m == n && cur == current && min <= current && (min < w <==> current < w || below)
    case Cas(c, m, cur) => c == call && m == n && cur == current && !below
    case _ => false
  }

  // An attempt that stands where it should.
  ghost predicate Attempted(t: State, size: nat, p: nat, call: Call, n: int, current: int, below: bool) {
    && Shape(t) && t.size == size && p < |t.producers|
    && Tracks(t.producers[p].pc, call, n, current, current + n - size, below)
  }

  lemma {:induction false} AttemptTracked(s: State, run: seq<Action>, t: State, p: nat, call: Call, n: int,
                                          current: int)
    requires Shape(s) && p < |s.producers| && s.producers[p].pc == ReadCache(call, n, current)
    requires Run(s, run) == Some(t) && Undecided(run, p)
    ensures Attempted(t, s.size, p, call, n, current, SampledBelow(s, run, p, current + n - s.size))
    decreases |run|
  {
    var w := current + n - s.size;
    if run != [] {
      var init, a := run[..|run| - 1], run[|run| - 1];
      var u := Run(s, init).value;
      AttemptTracked(s, init, u, p, call, n, current);
      SampledBelowNext(s, run, p, w);
      AttemptStep(u, t, a, p, s.producers[p].pc, w, SampledBelow(s, init, p, w), SamplesBelow(s, run, |run| - 1, p, w));
    }
  }

  lemma AttemptStep(u: State, t: State, a: Action, p: nat, me: ProducerPc, w: int, below: bool, now: bool)
    requires Shape(u) && p < |u.producers| && me.ReadCache? && Step(u, a) == Some(t)
    requires Tracks(u.producers[p].pc, me.call, me.count, me.current, w, below)
    requires a != Decide(p) && a != CasCursor(p)
    requires now <==> a == SampleOne(p) && u.producers[p].pc.Sample? &&
                      u.producers[p].pc.at < |Gating(u)| && Gating(u)[u.producers[p].pc.at] < w
    ensures |t.producers| == |u.producers| && t.size == u.size
    ensures Tracks(t.producers[p].pc, me.call, me.count, me.current, w, below || now)
  {
    if a != LoadCache(p) && a != SampleOne(p) {
      assert t.producers[p].pc == u.producers[p].pc;
    }
  }

  // The producer has sampled every gating sequence.
  ghost predicate Sampled(t: State, p: nat)
    requires p < |t.producers|
  {
    t.producers[p].pc.Sample? && t.producers[p].pc.at >= |Gating(t)|
  }

  // What the decision of a claim that has sampled everything comes to: granted,
  // tryNext goes on to its compare-and-set and next stores a cache value with which
  // the retry passes; refused, tryNext gives up and next tries again with the cache
  // as it is.
  ghost predicate Outcome(t: State, p: nat, call: Call, n: int, current: int, refused: bool)
    requires Shape(t) && p < |t.producers|
  {
    && ProducerStep(t, p, Decide(p)).Some?
    && var r := ProducerStep(t, p, Decide(p)).value;
       && p < |r.producers|
       && match call
          case TryNext => r.producers[p].pc == if refused then Idle else Cas(TryNext, n, current)
          case Next =>
            && r.producers[p].pc == ReadCursor(Next, n)
            && if refused then r.gatingCache == t.gatingCache else current + n - t.size <= r.gatingCache <= current
  }

  lemma DecideOutcome(t: State, p: nat, call: Call, n: int, current: int, below: bool)
    requires Shape(t) && p < |t.producers| && Sampled(t, p)
    requires Tracks(t.producers[p].pc, call, n, current, current + n - t.size, below)
    ensures Outcome(t, p, call, n, current, n > t.size || below)
  {
  }

  // What becomes of an attempt that has sampled everything.
  ghost predicate Decided(t: State, size: nat, p: nat, call: Call, n: int, current: int, refused: bool) {
    Shape(t) && t.size == size && p < |t.producers| && (Sampled(t, p) ==> Outcome(t, p, call, n, current, refused))
  }

  lemma AttemptDecided(t: State, size: nat, p: nat, call: Call, n: int, current: int, below: bool)
    requires Attempted(t, size, p, call, n, current, below)
    ensures Decided(t, size, p, call, n, current, n > size || below)
  {
    if Sampled(t, p) { DecideOutcome(t, p, call, n, current, below); }
  }

  // For any interleaving since it loaded the cache, a claim is refused exactly when it
  // is longer than the ring or some gating sequence was, as it was sampled, a ring or
  // more behind the end of the claim.
  lemma ClaimRefusedIff(s: State, run: seq<Action>, t: State, p: nat, call: Call, n: int, current: int)
    requires Shape(s) && p < |s.producers| && s.producers[p].pc == ReadCache(call, n, current)
    requires Run(s, run) == Some(t) && Undecided(run, p)
    ensures Decided(t, s.size, p, call, n, current, n > s.size || SampledBelow(s, run, p, current + n - s.size))
  {
    AttemptTracked(s, run, t, p, call, n, current);
    AttemptDecided(t, s.size, p, call, n, current, SampledBelow(s, run, p, current + n - s.size));
  }

  // A cache value lets a claim through exactly when it lies between the end less one
  // ring and the cursor the claim has read.
  lemma CachePassesIff(s: State, p: nat)
    requires Shape(s) && p < |s.producers| && s.producers[p].pc.ReadCache?
    ensures Step(s, LoadCache(p)).Some?
    ensures var me := s.producers[p].pc;
            Step(s, LoadCache(p)).value.producers[p].pc ==
            if me.current + me.count - s.size <= s.gatingCache <= me.current
            then Cas(me.call, me.count, me.current) else Sample(me.call, me.count, me.current, 0, me.current)
  {
  }

  // So room is never refused: when there is room for the claim as it loads the cache,
  // nothing it samples later, in any interleaving, is below, and it is granted.
  lemma RoomIsGranted(s: State, run: seq<Action>, t: State, p: nat, call: Call, n: int, current: int)
    requires Reachable(s) && Shape(s) && p < |s.producers| && s.producers[p].pc == ReadCache(call, n, current)
    requires n <= s.size && forall j :: 0 <= j < |Gating(s)| ==> current + n - s.size <= Gating(s)[j]
    requires Run(s, run) == Some(t) && Undecided(run, p)
    ensures Decided(t, s.size, p, call, n, current, false)
  {
    NeverBelow(s, run, p, current + n - s.size);
    ClaimRefusedIff(s, run, t, p, call, n, current);
  }

  lemma NeverBelow(s: State, run: seq<Action>, p: nat, w: int)
    requires Reachable(s) && Shape(s) && Run(s, run).Some?
    requires forall j :: 0 <= j < |Gating(s)| ==> w <= Gating(s)[j]
    ensures !SampledBelow(s, run, p, w)
  {
    ReachableInv(s);
    forall i: nat | i < |run|
      ensures !SamplesBelow(s, run, i, p, w)
    {
      NothingBelow(s, run, i, p, w);
    }
  }

  lemma NothingBelow(s: State, run: seq<Action>, i: nat, p: nat, w: int)
    requires Inv(s) && Run(s, run).Some? && i < |run|
    requires forall j :: 0 <= j < |Gating(s)| ==> w <= Gating(s)[j]
    ensures !SamplesBelow(s, run, i, p, w)
  {
    PrefixRuns(s, run, i);
    RunGatingGrows(s, run[..i]);
  }

  // ---------- a claim running alone ----------

  ghost predicate OnlyProducer(run: seq<Action>, p: nat) {
    forall k :: 0 <= k < |run| ==> ByProducer(run[k]) && run[k].p == p
  }

  // t is reached from s by actions of producer p alone.
  ghost predicate Alone(s: State, t: State, p: nat) {
    Shape(s) && exists run :: OnlyProducer(run, p) && Run(s, run) == Some(t)
  }

  lemma AloneNext(s: State, t: State, p: nat, a: Action)
    requires Alone(s, t, p) && Shape(t) && ByProducer(a) && a.p == p && Step(t, a).Some?
    ensures Alone(s, Step(t, a).value, p) && Shape(Step(t, a).value)
  {
    var run :| OnlyProducer(run, p) && Run(s, run) == Some(t);
    var run' := run + [a];
    assert run'[..|run|] == run;
    assert OnlyProducer(run', p) && Run(s, run') == Some(Step(t, a).value);
  }

  // Nothing but where p stands, and the cache, differs.
  ghost predicate Between(s: State, t: State, p: nat, pc: ProducerPc, cache: int)
    requires p < |s.producers|
  {
    t == SetProducer(s, p, pc).(gatingCache := cache)
  }

  lemma AloneStep(s: State, t: State, p: nat, pc: ProducerPc, cache: int, a: Action, pc': ProducerPc, cache': int)
    requires p < |s.producers| && Alone(s, t, p) && Shape(t) && Between(s, t, p, pc, cache)
    requires ByProducer(a) && a.p == p && Step(t, a) == Some(SetProducer(t, p, pc').(gatingCache := cache'))
    ensures Alone(s, Step(t, a).value, p) && Shape(Step(t, a).value)
    ensures Between(s, Step(t, a).value, p, pc', cache')
  {
    AloneNext(s, t, p, a);
  }

  // Sampling everything without a gating sequence below w.
  lemma {:induction false} SampleAll(s: State, t: State, p: nat, call: Call, n: int, current: int, at: nat, min: int,
                                     cache: int, w: int)
    returns (u: State, least: int)
    requires p < |s.producers| && Alone(s, t, p) && Shape(t) && at <= |Gating(s)|
    requires Between(s, t, p, Sample(call, n, current, at, min), cache) && w <= min <= current
    requires forall j :: 0 <= j < |Gating(s)| ==> w <= Gating(s)[j]
    ensures Alone(s, u, p) && Shape(u) && w <= least <= current
    ensures Between(s, u, p, Sample(call, n, current, |Gating(s)|, least), cache)
    decreases |Gating(s)| - at
  {
    u, least := t, min;
    if at < |Gating(s)| {
      assert Gating(t) == Gating(s);
      var m := Min(min, Gating(s)[at]);
      AloneStep(s, t, p, Sample(call, n, current, at, min), cache, SampleOne(p), Sample(call, n, current, at + 1, m), cache);
      u, least := SampleAll(s, Step(t, SampleOne(p)).value, p, call, n, current, at + 1, m, cache, w);
    }
  }

  // From just before the cursor is read to just before the compare-and-set.
  lemma AloneToCas(s: State, t: State, p: nat, call: Call, n: int) returns (u: State, cache: int)
    requires p < |s.producers| && Alone(s, t, p) && Shape(t) && 1 <= n <= s.size
    requires Between(s, t, p, ReadCursor(call, n), s.gatingCache)
    requires forall j :: 0 <= j < |Gating(s)| ==> s.cursor + n - s.size <= Gating(s)[j]
    ensures Alone(s, u, p) && Shape(u) && Between(s, u, p, Cas(call, n, s.cursor), cache)
  {
    var c, w := s.cursor, s.cursor + n - s.size;
    AloneStep(s, t, p, ReadCursor(call, n), s.gatingCache, LoadCursor(p), ReadCache(call, n, c), s.gatingCache);
    var t1 := Step(t, LoadCursor(p)).value;
    CachePassesIff(t1, p);
    if w <= s.gatingCache <= c {
      AloneStep(s, t1, p, ReadCache(call, n, c), s.gatingCache, LoadCache(p), Cas(call, n, c), s.gatingCache);
      u, cache := Step(t1, LoadCache(p)).value, s.gatingCache;
    } else {
      AloneStep(s, t1, p, ReadCache(call, n, c), s.gatingCache, LoadCache(p), Sample(call, n, c, 0, c), s.gatingCache);
      var t2, least := SampleAll(s, Step(t1, LoadCache(p)).value, p, call, n, c, 0, c, s.gatingCache, w);
      u, cache := AloneDecides(s, t2, p, call, n, least);
    }
  }

  lemma AloneDecides(s: State, t: State, p: nat, call: Call, n: int, least: int) returns (u: State, cache: int)
    requires p < |s.producers| && Alone(s, t, p) && Shape(t)
    requires s.cursor + n - s.size <= least <= s.cursor
    requires Between(s, t, p, Sample(call, n, s.cursor, |Gating(s)|, least), s.gatingCache)
    ensures Alone(s, u, p) && Shape(u) && Between(s, u, p, Cas(call, n, s.cursor), cache)
  {
    var c, pc := s.cursor, Sample(call, n, s.cursor, |Gating(s)|, least);
    assert Gating(t) == Gating(s);
    cache := least;
    match call {
      case TryNext =>
        AloneStep(s, t, p, pc, s.gatingCache, Decide(p), Cas(call, n, c), least);
        u := Step(t, Decide(p)).value;
      case Next =>
        AloneStep(s, t, p, pc, s.gatingCache, Decide(p), ReadCursor(call, n), least);
        var t1 := Step(t, Decide(p)).value;
        AloneStep(s, t1, p, ReadCursor(call, n), least, LoadCursor(p), ReadCache(call, n, c), least);
        var t2 := Step(t1, LoadCursor(p)).value;
        AloneStep(s, t2, p, ReadCache(call, n, c), least, LoadCache(p), Cas(call, n, c), least);
        u := Step(t2, LoadCache(p)).value;
    }
  }

  // Running alone, either call claims exactly the next n sequences whenever there is
  // room for them.
  lemma ClaimAlone(s: State, p: nat, call: Call, n: int) returns (t: State)
    requires Shape(s) && p < |s.producers| && s.producers[p].pc == Idle && 1 <= n <= s.size
    requires forall j :: 0 <= j < |Gating(s)| ==> s.cursor + n - s.size <= Gating(s)[j]
    ensures Alone(s, t, p) && p < |t.producers|
    ensures t.cursor == s.cursor + n && t.producers[p].pc == Idle
    ensures t.history.claims == s.history.claims + [Range(s.cursor + 1, s.cursor + n)]
    ensures forall x :: x in t.producers[p].pending <==> x in s.producers[p].pending || s.cursor < x <= s.cursor + n
  {
    assert Run(s, []) == Some(s) && OnlyProducer([], p);
    assert s.producers[p := s.producers[p].(pc := Idle)] == s.producers;
    assert Between(s, s, p, Idle, s.gatingCache);
    AloneStep(s, s, p, Idle, s.gatingCache, Begin(p, call, n), ReadCursor(call, n), s.gatingCache);
    var u, cache := AloneToCas(s, Step(s, Begin(p, call, n)).value, p, call, n);
    t := AloneClaims(s, u, p, call, n, cache);
  }

  lemma AloneClaims(s: State, u: State, p: nat, call: Call, n: int, cache: int) returns (t: State)
    requires p < |s.producers| && Alone(s, u, p) && Shape(u) && Between(s, u, p, Cas(call, n, s.cursor), cache)
    ensures Alone(s, t, p) && p < |t.producers|
    ensures t.cursor == s.cursor + n && t.producers[p].pc == Idle
    ensures t.history.claims == s.history.claims + [Range(s.cursor + 1, s.cursor + n)]
    ensures forall x :: x in t.producers[p].pending <==> x in s.producers[p].pending || s.cursor < x <= s.cursor + n
  {
    AloneNext(s, u, p, CasCursor(p));
    t := Step(u, CasCursor(p)).value;
  }

  // ---------- when the backlog check reports a backlog ----------

  // Action i of the run is the check reading a gating sequence below c.
  ghost predicate SeesBelow(s: State, run: seq<Action>, i: nat, c: int)
    requires Shape(s) && i < |run|
  {
    && run[i] == ObserveOne && Run(s, run[..i]).Some?
    && var u := Run(s, run[..i]).value;
       u.observer.Scanning? && u.observer.at < |Gating(u)| && Gating(u)[u.observer.at] < c
  }

  ghost predicate SeenBelow(s: State, run: seq<Action>, c: int)
    requires Shape(s)
  {
    exists i: nat :: i < |run| && SeesBelow(s, run, i, c)
  }

  lemma SeenBelowNext(s: State, run: seq<Action>, c: int)
    requires Shape(s) && run != []
    ensures SeenBelow(s, run, c) <==> SeenBelow(s, run[..|run| - 1], c) || SeesBelow(s, run, |run| - 1, c)
  {
    var init := run[..|run| - 1];
    forall i: nat | i < |init|
      ensures SeesBelow(s, run, i, c) <==> SeesBelow(s, init, i, c)
    {
      assert init[..i] == run[..i];
    }
  }

  // From the start of a scan, for any interleaving: the check answers "backlog"
  // exactly when it has read a gating sequence below the cursor it read before.
  lemma {:induction false} BacklogIffSeen(s: State, run: seq<Action>)
    requires Shape(s) && s.observer.Scanning? && s.observer.at == 0
    requires Run(s, run).Some? && forall k :: 0 <= k < |run| ==> run[k] != ObserveCursor
    ensures Checks(Run(s, run).value.observer, s.observer.cursor, SeenBelow(s, run, s.observer.cursor))
    decreases |run|
  {
    if run != [] {
      var init, c := run[..|run| - 1], s.observer.cursor;
      BacklogIffSeen(s, init);
      SeenBelowNext(s, run, c);
      ScanStep(Run(s, init).value, run[|run| - 1], c, SeenBelow(s, init, c), SeesBelow(s, run, |run| - 1, c));
    }
  }

  // The check of cursor c goes on, or has answered by what it has seen.
  ghost predicate Checks(o: Observer, c: int, seen: bool) {
    o == Answer(c, seen, true) || (o.Scanning? && o.cursor == c && !seen)
  }

  lemma ScanStep(u: State, a: Action, c: int, seen: bool, now: bool)
    requires Shape(u) && Checks(u.observer, c, seen) && Step(u, a).Some? && a != ObserveCursor
    requires now <==> a == ObserveOne && u.observer.Scanning? && u.observer.at < |Gating(u)| && Gating(u)[u.observer.at] < c
    ensures Checks(Step(u, a).value.observer, c, seen || now)
  {
  }

  // So a ring that has drained up to the cursor read never reports a backlog.
  lemma DrainedReportsNone(s: State, run: seq<Action>)
    requires Reachable(s) && s.observer.Scanning? && s.observer.at == 0
    requires forall j :: 0 <= j < |Gating(s)| ==> s.observer.cursor <= Gating(s)[j]
    requires Run(s, run).Some? && forall k :: 0 <= k < |run| ==> run[k] != ObserveCursor
    ensures Run(s, run).value.observer.Answer? ==> !Run(s, run).value.observer.backlog
  {
    ReachableInv(s);
    BacklogIffSeen(s, run);
    forall i: nat | i < |run|
      ensures !SeesBelow(s, run, i, s.observer.cursor)
    {
      PrefixRuns(s, run, i);
      RunGatingGrows(s, run[..i]);
    }
  }

  // ---------- a worker with a published sequence ----------

  ghost predicate OnlyWorker(run: seq<Action>, w: nat) {
    forall k :: 0 <= k < |run| ==> ByWorker(run[k]) && run[k].w == w
  }

  // t is reached from s by actions of worker w alone, and differs in w only.
  ghost predicate WorkerAlone(s: State, t: State, w: nat)
    requires w < |s.workers|
  {
    && Shape(s) && Shape(t) && |t.workers| == |s.workers| && t == s.(workers := s.workers[w := t.workers[w]])
    && exists run :: OnlyWorker(run, w) && Run(s, run) == Some(t)
  }

  lemma WorkerNext(s: State, t: State, w: nat, a: Action, me: Worker)
    requires w < |s.workers| && WorkerAlone(s, t, w) && ByWorker(a) && a.w == w
    requires Step(t, a) == Some(t.(workers := t.workers[w := me]))
    ensures WorkerAlone(s, Step(t, a).value, w)
  {
    var run :| OnlyWorker(run, w) && Run(s, run) == Some(t);
    var run' := run + [a];
    assert run'[..|run|] == run;
    assert OnlyWorker(run', w) && Run(s, run') == Some(Step(t, a).value);
  }

  // A scan that has passed n, or is about to, ends with a bound from n on.
  lemma {:induction false} ScanEnds(s: State, t: State, w: nat, n: int) returns (u: State)
    requires w < |s.workers| && WorkerAlone(s, t, w)
    requires t.workers[w].pc.Scan? && t.workers[w].pc.next == n
    requires var me := t.workers[w].pc; n < me.at <= me.available + 1 || (n == me.at <= me.available && IsAvailable(s, n))
    ensures WorkerAlone(s, u, w) && u.workers[w].pc == Check(n) && u.workers[w].cached >= n
    decreases t.workers[w].pc.available - t.workers[w].pc.at
  {
    var me := t.workers[w].pc;
    var r := Step(t, ScanOne(w)).value;
    WorkerNext(s, t, w, ScanOne(w), r.workers[w]);
    if me.at <= me.available && IsAvailable(t, me.at) {
      u := ScanEnds(s, r, w, n);
    } else {
      u := r;
    }
  }

  // Waiting for a published sequence.
  lemma WaitEnds(s: State, t: State, w: nat, n: int) returns (u: State)
    requires w < |s.workers| && WorkerAlone(s, t, w)
    requires t.workers[w].pc == Wait(n) && n <= s.cursor && IsAvailable(s, n)
    ensures WorkerAlone(s, u, w) && u.workers[w].pc == Check(n) && u.workers[w].cached >= n
  {
    var r := Step(t, LoadAvailable(w)).value;
    WorkerNext(s, t, w, LoadAvailable(w), r.workers[w]);
    u := ScanEnds(s, r, w, n);
  }

  lemma CheckEnds(s: State, t: State, w: nat, n: int) returns (u: State)
    requires w < |s.workers| && WorkerAlone(s, t, w)
    requires t.workers[w].pc == Check(n) && n <= s.cursor && IsAvailable(s, n)
    ensures WorkerAlone(s, u, w) && u.workers[w].pc == Handle(n)
  {
    var r := Step(t, CheckCached(w)).value;
    WorkerNext(s, t, w, CheckCached(w), r.workers[w]);
    u := r;
    if t.workers[w].cached < n {
      var v := WaitEnds(s, r, w, n);
      u := Step(v, CheckCached(w)).value;
      WorkerNext(s, v, w, CheckCached(w), u.workers[w]);
    }
  }

  // A worker that holds a published sequence, and has not been halted, gets to the
  // handler with it by its own actions.
  lemma HeldReachesHandler(s: State, w: nat, n: int) returns (t: State)
    requires Reachable(s) && w < |s.workers| && Holds(s, w, n) && !s.workers[w].pc.Halted? && n in s.history.published
    ensures WorkerAlone(s, t, w) && t.workers[w].pc == Handle(n)
  {
    ReachableInv(s);
    assert WorkerAt(s, w) && WorkerSees(s, w) && Gating(s)[w] == s.progress[w];
    FlagsRefinePublished(s, n, w);
    assert Run(s, []) == Some(s) && OnlyWorker([], w);
    assert s.workers[w := s.workers[w]] == s.workers;
    match s.workers[w].pc
    case Handle(_) => t := s;
    case Check(_) => t := CheckEnds(s, s, w, n);
    case Wait(_) =>
      var u := WaitEnds(s, s, w, n);
      t := CheckEnds(s, u, w, n);
    case Scan(_, available, at) =>
      if at == n && available < n {
        var r := Step(s, ScanOne(w)).value;
        WorkerNext(s, s, w, ScanOne(w), r.workers[w]);
        t := CheckEnds(s, r, w, n);
      } else {
        var u := ScanEnds(s, s, w, n);
        t := CheckEnds(s, u, w, n);
      }
  }

  // ---------- a worker alone handles the next published sequence ----------

  // t is reached from s by actions of worker w alone.
  ghost predicate ReachedBy(s: State, t: State, w: nat) {
    Shape(s) && Shape(t) && exists run :: OnlyWorker(run, w) && Run(s, run) == Some(t)
  }

  lemma {:induction false} RunsJoin(s: State, a: seq<Action>, b: seq<Action>)
    requires Shape(s) && Run(s, a).Some?
    ensures Run(s, a + b) == Run(Run(s, a).value, b)
    decreases |b|
  {
    if b == [] {
      assert a + b == a;
    } else {
      var n := |b| - 1;
      RunsJoin(s, a, b[..n]);
      assert (a + b)[..|a + b| - 1] == a + b[..n];
    }
  }

  lemma ReachedJoin(s: State, t: State, u: State, w: nat)
    requires ReachedBy(s, t, w) && ReachedBy(t, u, w)
    ensures ReachedBy(s, u, w)
  {
    var a :| OnlyWorker(a, w) && Run(s, a) == Some(t);
    var b :| OnlyWorker(b, w) && Run(t, b) == Some(u);
    RunsJoin(s, a, b);
    assert OnlyWorker(a + b, w);
  }

  lemma ReachedOne(s: State, w: nat, a: Action)
    requires Shape(s) && ByWorker(a) && a.w == w && Step(s, a).Some?
    ensures ReachedBy(s, Step(s, a).value, w)
  {
    assert [a][..0] == [] && OnlyWorker([a], w);
    assert Run(s, [a]) == Step(s, a);
  }

  lemma ReachedIsReachable(s: State, t: State, w: nat)
    requires Reachable(s) && ReachedBy(s, t, w)
    ensures Reachable(t)
  {
    var entries, producers: nat, workers: nat, run :|
      |entries| > 0 && Run(Init(|entries|, entries, producers, workers), run) == Some(s);
    var b :| OnlyWorker(b, w) && Run(s, b) == Some(t);
    RunsJoin(Init(|entries|, entries, producers, workers), run, b);
  }

  lemma WorkerLoads(s: State, w: nat) returns (t: State)
    requires Shape(s) && w < |s.workers| && s.workers[w].pc == LoadWork
    ensures ReachedBy(s, t, w) && t == SetWorker(s, w, Report(s.work + 1))
  {
    t := Step(s, LoadWorkSequence(w)).value;
    ReachedOne(s, w, LoadWorkSequence(w));
  }

  lemma WorkerReports(s: State, w: nat, n: int) returns (t: State)
    requires Shape(s) && w < |s.workers| && s.workers[w].pc == Report(n)
    ensures ReachedBy(s, t, w) && t == SetWorker(s, w, Claim(n)).(progress := s.progress[w := n - 1])
  {
    t := Step(s, StoreProgress(w)).value;
    ReachedOne(s, w, StoreProgress(w));
  }

  lemma WorkerClaims(s: State, w: nat, n: int) returns (t: State)
    requires Shape(s) && w < |s.workers| && s.workers[w].pc == Claim(n) && s.work == n - 1
    ensures ReachedBy(s, t, w)
    ensures t == SetWorker(s, w, Check(n)).(work := n, history := s.history.(owner := s.history.owner[n := w]))
  {
    t := Step(s, CasWork(w)).value;
    ReachedOne(s, w, CasWork(w));
  }

  // Nobody else claiming, a worker at the top of its loop claims the next sequence.
  lemma WorkerClaimsNext(s: State, w: nat) returns (t: State)
    requires Shape(s) && w < |s.workers| && s.workers[w].pc == LoadWork
    ensures ReachedBy(s, t, w) && t.work == s.work + 1 && t.progress == s.progress[w := s.work]
    ensures t.workers == s.workers[w := s.workers[w].(pc := Check(s.work + 1))]
    ensures t.history == s.history.(owner := s.history.owner[s.work + 1 := w])
    ensures t.entries == s.entries && t.cursor == s.cursor
  {
    var a := WorkerLoads(s, w);
    var b := WorkerReports(a, w, s.work + 1);
    t := WorkerClaims(b, w, s.work + 1);
    ReachedJoin(s, a, b, w);
    ReachedJoin(s, b, t, w);
  }

  // So a worker at the top of its loop, left alone, handles the next published sequence,
  // with the event written for it, and is back there.
  lemma WorkerHandlesNext(s: State, w: nat) returns (t: State, event: int)
    requires Reachable(s) && w < |s.workers| && s.workers[w].pc == LoadWork && s.work + 1 in s.history.published
    ensures ReachedBy(s, t, w) && t.work == s.work + 1 && w < |t.workers| && t.workers[w].pc == LoadWork
    ensures t.history.handled == s.history.handled + [Handled(w, s.work + 1, event)]
    ensures s.work + 1 in s.history.written ==> event == s.history.written[s.work + 1]
  {
    var n := s.work + 1;
    ReachableInv(s);
    var a := WorkerClaimsNext(s, w);
    ReachedIsReachable(s, a, w);
    var b := HeldReachesHandler(a, w, n);
    ReachedJoin(s, a, b, w);
    event := s.entries[Slot(s.size, n)];
    t := HandlerEnds(b, w, n);
    ReachedJoin(s, b, t, w);
    ReachedIsReachable(s, t, w);
    HandledEvent(t, |s.history.handled|);
  }

  lemma HandlerEnds(s: State, w: nat, n: int) returns (t: State)
    requires Shape(s) && w < |s.workers| && s.workers[w].pc == Handle(n)
    ensures ReachedBy(s, t, w) && t.work == s.work && w < |t.workers| && t.workers[w].pc == LoadWork
    ensures t.history.handled == s.history.handled + [Handled(w, n, s.entries[Slot(s.size, n)])]
    ensures t.history.written == s.history.written
  {
    t := Step(s, Finish(w)).value;
    ReachedOne(s, w, Finish(w));
  }

  lemma HandledEvent(t: State, i: nat)
    requires Reachable(t) && i < |t.history.handled|
    ensures var h := t.history.handled[i];
            h.sequence in t.history.written ==> h.event == t.history.written[h.sequence]
  {
    ReachableInv(t);
    assert HandledAt(t, i);
  }
}
