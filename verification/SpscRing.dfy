// The single-producer single-consumer ring that carries ticks between threads,
// as a transition system over one writer and one reader.  A load of the other
// side's index may return any value stored since the last one this side saw, so
// the results hold for every outcome the acquire/release orderings allow.
module SpscRing {
  import opened Options
  import opened Arith

  // One store to a shared index.  `count` is the number of elements the storing
  // side had gone through; only `pos` exists in the program.
  datatype Store = Store(pos: nat, count: nat)

  datatype WriteCall = Write | WriteSome | WriteOne
  datatype ReadCall = Read | ReadSome

  // Where a side stands inside a call: testing the loop condition, about to load
  // the other index, about to publish before waiting, waiting for a change of
  // the other index, about to move an element, about to publish and return.
  datatype Pc = Idle | Test | Load | Spin | Wait | Move | Return

  // `fieldPos` and `fieldCached` are the members kept between calls, `pos` and
  // `cached` their copies inside a call.  `seen` numbers the last store of the
  // other side this side has loaded; `given` and `start` record the call.
  datatype Writer = Writer(pc: Pc, call: WriteCall, input: seq<int>, pos: nat, cached: nat,
                           fieldPos: nat, fieldCached: nat, seen: nat, given: seq<int>, start: nat)
  datatype Reader = Reader(pc: Pc, call: ReadCall, want: nat, pos: nat, cached: nat,
                           fieldPos: nat, fieldCached: nat, seen: nat, asked: nat, start: nat)

  datatype State = State(
    ring: seq<int>,               // m_ring_buffer
    writeStores: seq<Store>,      // every value m_write_pos has held
    readStores: seq<Store>,       // every value m_read_pos has held
    writer: Writer,
    reader: Reader,
    accepted: seq<int>,           // every element stored so far
    consumed: seq<int>)           // every element handed to the reader so far

  function Init(ring: seq<int>): State {
    State(ring, [Store(0, 0)], [Store(0, 0)],
          Writer(Idle, Write, [], 0, 0, 0, 0, 0, [], 0), Reader(Idle, Read, 0, 0, 0, 0, 0, 0, 0, 0), [], [])
  }

  datatype Action =
    | WriterCalls(call: WriteCall, input: seq<int>)
    | WriterTests
    | WriterLoads(k: nat)
    | WriterPublishes
    | WriterWakes(k: nat)
    | WriterMoves
    | WriterReturns
    | ReaderCalls(rcall: ReadCall, want: nat)
    | ReaderTests
    | ReaderLoads(k: nat)
    | ReaderPublishes
    | ReaderWakes(k: nat)
    | ReaderMoves
    | ReaderReturns

  // The index after p, wrapping at the end of the array.
  function Next(n: nat, p: nat): nat {
    if p + 1 == n then 0 else p + 1
  }

  function WriterStep(s: State, a: Action): Option<State>
    requires |s.ring| > 0
  {
    var me := s.writer;
    var n := |s.ring|;
    match (a, me.pc)
    case (WriterCalls(call, input), Idle) =>
      if call.WriteOne? && |input| != 1 then None
      else
        Some(s.(writer := me.(pc := Test, call := call, input := input, pos := me.fieldPos,
                              cached := me.fieldCached, given := input, start := |s.accepted|)))
    case (WriterTests, Test) =>
      Some(s.(writer := me.(pc := if me.input == [] then Return
                                  else if Next(n, me.pos) == me.cached then Load else Move)))
    case (WriterLoads(k), Load) =>
      if !(me.seen <= k < |s.readStores|) then None
      else
        var found := s.readStores[k].pos;
        Some(s.(writer := me.(cached := found, seen := k,
                              pc := if Next(n, me.pos) != found then Move
                                    else if me.call.Write? then Spin else Return)))
    case (WriterPublishes, Spin) =>
      Some(s.(writer := me.(pc := Wait), writeStores := s.writeStores + [Store(me.pos, |s.accepted|)]))
    case (WriterWakes(k), Wait) =>
      if me.seen <= k < |s.readStores| && s.readStores[k].pos != me.cached then
        Some(s.(writer := me.(pc := Load, seen := k)))
      else None
    case (WriterMoves, Move) =>
      if me.input == [] || me.pos >= n then None
      else
        Some(s.(ring := s.ring[me.pos := me.input[0]], accepted := s.accepted + [me.input[0]],
                writer := me.(pc := Test, input := me.input[1..], pos := Next(n, me.pos))))
    case (WriterReturns, Return) =>
      // write_one leaves its position member alone when it gives up
      var keep := me.call.WriteOne? && me.input != [];
      Some(s.(writeStores := s.writeStores + [Store(me.pos, |s.accepted|)],
              writer := me.(pc := Idle, fieldPos := if keep then me.fieldPos else me.pos,
                            fieldCached := me.cached)))
    case _ => None
  }

  function ReaderStep(s: State, a: Action): Option<State>
    requires |s.ring| > 0
  {
    var me := s.reader;
    var n := |s.ring|;
    match (a, me.pc)
    case (ReaderCalls(call, want), Idle) =>
      Some(s.(reader := me.(pc := Test, call := call, want := want, pos := me.fieldPos,
                            cached := me.fieldCached, asked := want, start := |s.consumed|)))
    case (ReaderTests, Test) =>
      Some(s.(reader := me.(pc := if me.want == 0 then Return else if me.pos == me.cached then Load else Move)))
    case (ReaderLoads(k), Load) =>
      if !(me.seen <= k < |s.writeStores|) then None
      else
        var found := s.writeStores[k].pos;
        Some(s.(reader := me.(cached := found, seen := k,
                              pc := if me.pos != found then Move else if me.call.Read? then Spin else Return)))
    case (ReaderPublishes, Spin) =>
      Some(s.(reader := me.(pc := Wait), readStores := s.readStores + [Store(me.pos, |s.consumed|)]))
    case (ReaderWakes(k), Wait) =>
      if me.seen <= k < |s.writeStores| && s.writeStores[k].pos != me.cached then
        Some(s.(reader := me.(pc := Load, seen := k)))
      else None
    case (ReaderMoves, Move) =>
      if me.want == 0 || me.pos >= n then None
      else
        Some(s.(consumed := s.consumed + [s.ring[me.pos]],
                reader := me.(pc := Test, want := me.want - 1, pos := Next(n, me.pos))))
    case (ReaderReturns, Return) =>
      Some(s.(readStores := s.readStores + [Store(me.pos, |s.consumed|)],
              reader := me.(pc := Idle, fieldPos := me.pos, fieldCached := me.cached)))
    case _ => None
  }

  function Step(s: State, a: Action): (r: Option<State>)
    requires |s.ring| > 0
    ensures r.Some? ==> |r.value.ring| == |s.ring|
  {
    match a
    case WriterCalls(_, _) => WriterStep(s, a)
    case WriterTests => WriterStep(s, a)
    case WriterLoads(_) => WriterStep(s, a)
    case WriterPublishes => WriterStep(s, a)
    case WriterWakes(_) => WriterStep(s, a)
    case WriterMoves => WriterStep(s, a)
    case WriterReturns => WriterStep(s, a)
    case _ => ReaderStep(s, a)
  }

  function Run(s: State, run: seq<Action>): (r: Option<State>)
    requires |s.ring| > 0
    ensures r.Some? ==> |r.value.ring| == |s.ring|
    decreases |run|
  {
    if run == [] then Some(s)
    else
      var t := Run(s, run[..|run| - 1]);
      if t.None? then None else Step(t.value, run[|run| - 1])
  }

  ghost predicate Reachable(s: State) {
    exists ring: seq<int>, run: seq<Action> :: |ring| > 0 && Run(Init(ring), run) == Some(s)
  }

  // ---------- the invariant ----------

  // Stored positions are element counts modulo the ring size, and grow.
  ghost predicate Stores(stores: seq<Store>, n: nat, limit: nat)
    requires n > 0
  {
    && (forall k :: 0 <= k < |stores| ==> stores[k].pos == stores[k].count % n && stores[k].count <= limit)
    && (forall j, k :: 0 <= j <= k < |stores| ==> stores[j].count <= stores[k].count)
  }

  ghost predicate WriterInv(s: State)
    requires |s.ring| > 0
  {
    var me, n, w := s.writer, |s.ring|, |s.accepted|;
    && me.seen < |s.readStores|
    && s.readStores[me.seen].count <= w < s.readStores[me.seen].count + n
    && (if me.pc.Idle? then me.fieldPos == w % n && me.fieldCached == s.readStores[me.seen].pos
        else
          && me.pos == w % n
          && (me.pc.Load? || me.cached == s.readStores[me.seen].pos)
          && (me.call.WriteOne? && me.input != [] ==> me.fieldPos == me.pos)
          && (me.call.WriteOne? ==> |me.given| == 1)
          && me.start <= w && s.accepted[me.start..] + me.input == me.given)
    && (me.pc.Move? ==> me.input != [] && w + 1 < s.readStores[me.seen].count + n)
    && (me.pc.Load? || me.pc.Spin? || me.pc.Wait? ==> me.input != [])
    && (me.pc.Spin? || me.pc.Wait? ==> Next(n, me.pos) == me.cached && me.call.Write?)
    && (me.pc.Return? ==> me.input == [] || (Next(n, me.pos) == me.cached && !me.call.Write?))
    && (me.pc.Wait? || me.pc.Idle? ==> |s.writeStores| > 0 && s.writeStores[|s.writeStores| - 1].count == w)
  }

  ghost predicate ReaderInv(s: State)
    requires |s.ring| > 0
  {
    var me, n, r := s.reader, |s.ring|, |s.consumed|;
    && me.seen < |s.writeStores|
    && r <= s.writeStores[me.seen].count
    && (if me.pc.Idle? then me.fieldPos == r % n && me.fieldCached == s.writeStores[me.seen].pos
        else
          && me.pos == r % n
          && (me.pc.Load? || me.cached == s.writeStores[me.seen].pos)
          && me.start <= r && (r - me.start) + me.want == me.asked)
    && (me.pc.Move? ==> me.want > 0 && r < s.writeStores[me.seen].count)
    && (me.pc.Load? || me.pc.Spin? || me.pc.Wait? ==> me.want > 0)
    && (me.pc.Spin? || me.pc.Wait? ==> me.pos == me.cached && me.call.Read?)
    && (me.pc.Return? ==> me.want == 0 || (me.pos == me.cached && !me.call.Read?))
    && (me.pc.Wait? || me.pc.Idle? ==> |s.readStores| > 0 && s.readStores[|s.readStores| - 1].count == r)
  }

  ghost predicate Inv(s: State) {
    && |s.ring| > 0
    && Stores(s.writeStores, |s.ring|, |s.accepted|)
    && Stores(s.readStores, |s.ring|, |s.consumed|)
    && WriterInv(s)
    && ReaderInv(s)
    && s.consumed <= s.accepted
    && (forall j :: |s.consumed| <= j < |s.accepted| ==> s.ring[j % |s.ring|] == s.accepted[j])
  }

  // The wrapped index after c is c + 1 modulo n.
  lemma NextIndex(n: nat, c: nat)
    requires n > 0
    ensures Next(n, c % n) == (c + 1) % n
  {
    var q, r := c / n, c % n;
    if r + 1 == n {
      assert (q + 1) * n == q * n + n;
      DivModUnique(c + 1, n, q + 1, 0);
    } else {
      DivModUnique(c + 1, n, q, r + 1);
    }
  }

  // The writer's test compares wrapped indices; it means "n - 1 elements ahead".
  lemma FullTest(n: nat, w: nat, r: nat)
    requires n > 0 && r <= w < r + n
    ensures Next(n, w % n) == r % n <==> w + 1 == r + n
  {
    NextIndex(n, w);
    if w + 1 == r + n {
      DivModShift(r, n, 1);
    } else if (w + 1) % n == r % n {
      SameRemainder(r, w + 1, n);
    }
  }

  // The reader's test compares wrapped indices; it means "nothing ahead".
  lemma EmptyTest(n: nat, w: nat, r: nat)
    requires n > 0 && r <= w < r + n
    ensures w % n == r % n <==> w == r
  {
    if w % n == r % n { SameRemainder(r, w, n); }
  }

  lemma WriterStepKeepsInv(s: State, a: Action)
    requires Inv(s) && WriterStep(s, a).Some?
    ensures Inv(WriterStep(s, a).value)
  {
    match a {
      case WriterTests => WriterTestsOn(s, WriterStep(s, a).value);
      case WriterLoads(k) => WriterLoadsOn(s, k, WriterStep(s, a).value);
      case WriterMoves =>
        WriteHitsFreeSlot(s, WriterStep(s, WriterMoves).value);
        WriterMovesOn(s, WriterStep(s, WriterMoves).value);
      case WriterPublishes => WriterStoresOn(s, a, WriterStep(s, a).value);
      case WriterReturns => WriterStoresOn(s, a, WriterStep(s, a).value);
      case WriterCalls(_, _) => WriterGoesOn(s, a, WriterStep(s, a).value);
      case WriterWakes(_) => WriterGoesOn(s, a, WriterStep(s, a).value);
      case _ =>
    }
  }

  // The two actions that store the writer's index.
  lemma WriterStoresOn(s: State, a: Action, t: State)
    requires Inv(s) && WriterStep(s, a) == Some(t) && (a.WriterPublishes? || a.WriterReturns?)
    ensures WriterInv(t) && ReaderInv(t) && Stores(t.writeStores, |t.ring|, |t.accepted|)
  {
    StoreAdded(s.writeStores, |s.ring|, Store(s.writer.pos, |s.accepted|));
  }

  lemma StoreAdded(stores: seq<Store>, n: nat, last: Store)
    requires n > 0 && Stores(stores, n, last.count) && last.pos == last.count % n
    ensures Stores(stores + [last], n, last.count)
  {
  }

  lemma WriterGoesOn(s: State, a: Action, t: State)
    requires Inv(s) && WriterStep(s, a) == Some(t) && (a.WriterCalls? || a.WriterWakes?)
    ensures WriterInv(t)
  {
  }

  lemma WriterTestsOn(s: State, t: State)
    requires Inv(s) && WriterStep(s, WriterTests) == Some(t)
    ensures WriterInv(t)
  {
    FullTest(|s.ring|, |s.accepted|, s.readStores[s.writer.seen].count);
  }

  lemma WriterLoadsOn(s: State, k: nat, t: State)
    requires Inv(s) && WriterStep(s, WriterLoads(k)) == Some(t)
    ensures WriterInv(t)
  {
    FullTest(|s.ring|, |s.accepted|, s.readStores[k].count);
  }

  lemma WriterMovesOn(s: State, t: State)
    requires |s.ring| > 0 && WriterInv(s) && WriterStep(s, WriterMoves) == Some(t)
    ensures WriterInv(t)
  {
    NextIndex(|s.ring|, |s.accepted|);
    MoveOne(s.accepted, s.writer.start, s.writer.input);
  }

  lemma MoveOne(accepted: seq<int>, start: nat, input: seq<int>)
    requires start <= |accepted| && input != []
    ensures (accepted + [input[0]])[start..] + input[1..] == accepted[start..] + input
  {
    assert (accepted + [input[0]])[start..] == accepted[start..] + [input[0]];
    assert input == [input[0]] + input[1..];
  }

  lemma WriteHitsFreeSlot(s: State, t: State)
    requires Inv(s) && WriterStep(s, WriterMoves) == Some(t)
    ensures forall j :: |t.consumed| <= j < |t.accepted| ==> t.ring[j % |t.ring|] == t.accepted[j]
    ensures s.consumed <= t.accepted
  {
    var n, w := |s.ring|, |s.accepted|;
    forall j | |t.consumed| <= j < |t.accepted| ensures t.ring[j % n] == t.accepted[j] {
      if j < w && j % n == w % n { SameRemainder(j, w, n); }
    }
  }

  lemma ReaderStepKeepsInv(s: State, a: Action)
    requires Inv(s) && ReaderStep(s, a).Some?
    ensures Inv(ReaderStep(s, a).value)
  {
    match a {
      case ReaderTests =>
        EmptyTest(|s.ring|, s.writeStores[s.reader.seen].count, |s.consumed|);
      case ReaderLoads(k) =>
        EmptyTest(|s.ring|, s.writeStores[k].count, |s.consumed|);
      case ReaderMoves =>
        ReaderMovesOn(s, ReaderStep(s, ReaderMoves).value);
      case _ =>
    }
  }

  lemma ReaderMovesOn(s: State, t: State)
    requires Inv(s) && ReaderStep(s, ReaderMoves) == Some(t)
    ensures ReaderInv(t) && t.consumed <= t.accepted
  {
    NextIndex(|s.ring|, |s.consumed|);
    assert s.ring[s.reader.pos] == s.accepted[|s.consumed|];
  }

  lemma {:induction false} RunKeepsInv(s: State, run: seq<Action>)
    requires Inv(s) && Run(s, run).Some?
    ensures Inv(Run(s, run).value)
    decreases |run|
  {
    if run != [] {
      var m := Run(s, run[..|run| - 1]).value;
      var a := run[|run| - 1];
      RunKeepsInv(s, run[..|run| - 1]);
      if WriterStep(m, a).Some? { WriterStepKeepsInv(m, a); } else { ReaderStepKeepsInv(m, a); }
    }
  }

  lemma ReachableInv(s: State)
    requires Reachable(s)
    ensures Inv(s)
  {
    var ring: seq<int>, run :| |ring| > 0 && Run(Init(ring), run) == Some(s);
    RunKeepsInv(Init(ring), run);
  }

  // ---------- the theorems ----------

  // Elements accepted and not yet consumed.
  function Queue(s: State): seq<int>
    requires |s.consumed| <= |s.accepted|
  {
    s.accepted[|s.consumed|..]
  }

  // One transition of a FIFO queue of the given capacity.
  ghost predicate FifoStep(q: seq<int>, q': seq<int>, capacity: int) {
    || q' == q
    || (|q| < capacity && |q'| == |q| + 1 && q' == q + [q'[|q|]])
    || (q != [] && q' == q[1..])
  }

  // Whatever was consumed is a prefix of what was accepted, and at most N - 1
  // elements are in flight.
  lemma ConsumedIsPrefix(s: State)
    requires Reachable(s)
    ensures s.consumed <= s.accepted && |s.accepted| <= |s.consumed| + |s.ring| - 1
  {
    ReachableInv(s);
  }

  // Every step of the ring is a step of a bounded FIFO of capacity N - 1.
  lemma RefinesBoundedFifo(s: State, a: Action)
    requires Reachable(s) && Step(s, a).Some?
    ensures var t := Step(s, a).value;
            && s.consumed <= s.accepted && t.consumed <= t.accepted
            && FifoStep(Queue(s), Queue(t), |s.ring| - 1)
            && (a.ReaderMoves? ==> Queue(s) != [] && t.consumed == s.consumed + [Queue(s)[0]])
            && (a.WriterMoves? ==> t.accepted == s.accepted + [s.writer.input[0]])
            && (!a.ReaderMoves? ==> t.consumed == s.consumed)
            && (!a.WriterMoves? ==> t.accepted == s.accepted)
  {
    ReachableInv(s);
    match a {
      case WriterMoves => AcceptEnqueues(s, Step(s, a).value);
      case ReaderMoves => DeliverDequeues(s, Step(s, a).value);
      case _ =>
    }
  }

  lemma AcceptEnqueues(s: State, t: State)
    requires Inv(s) && Step(s, WriterMoves) == Some(t)
    ensures t.consumed == s.consumed <= t.accepted && t.accepted == s.accepted + [s.writer.input[0]]
    ensures |Queue(s)| < |s.ring| - 1 && Queue(t) == Queue(s) + [s.writer.input[0]]
  {
  }

  lemma DeliverDequeues(s: State, t: State)
    requires Inv(s) && Step(s, ReaderMoves) == Some(t)
    ensures Queue(s) != [] && t.accepted == s.accepted && t.consumed == s.consumed + [Queue(s)[0]]
    ensures t.consumed <= t.accepted && Queue(t) == Queue(s)[1..]
  {
    assert s.ring[s.reader.pos] == s.accepted[|s.consumed|];
  }

  // A write call accepts a prefix of its input and hands back the rest; only the
  // batched and single forms ever hand back anything, and then the ring was full
  // as far as the index last loaded could tell.
  lemma WriteReturnsTheRest(s: State)
    requires Reachable(s) && s.writer.pc.Return?
    ensures var me := s.writer;
            && me.start <= |s.accepted| && me.seen < |s.readStores|
            && s.accepted[me.start..] + me.input == me.given
            && (me.call.Write? ==> me.input == [])
            && (me.input != [] ==> |s.accepted| == s.readStores[me.seen].count + |s.ring| - 1)
            && (me.call.WriteOne? && me.input != [] ==> s.accepted[me.start..] == [])
  {
    ReachableInv(s);
    FullTest(|s.ring|, |s.accepted|, s.readStores[s.writer.seen].count);
    assert |s.accepted[s.writer.start..]| + |s.writer.input| == |s.writer.given|;
  }

  // A read call delivers exactly the elements it moved, in order.
  lemma ReadReturnsTheNext(s: State)
    requires Reachable(s) && s.reader.pc.Return?
    ensures var me := s.reader;
            && me.start + me.asked - me.want == |s.consumed| <= |s.accepted|
            && me.start <= |s.consumed| && me.seen < |s.writeStores|
            && s.consumed[me.start..] == s.accepted[me.start..|s.consumed|]
            && (me.call.Read? ==> me.want == 0)
            && (me.want > 0 ==> |s.consumed| == s.writeStores[me.seen].count)
  {
    ReachableInv(s);
    EmptyTest(|s.ring|, s.writeStores[s.reader.seen].count, |s.consumed|);
  }

  // No data race.  When the writer is about to store element w, the index store
  // it loaded was made after the reader had finished with element w - N, the last
  // to use that slot; when the reader is about to copy element r, the index store
  // it loaded was made after element r was stored; and the two slots differ.
  lemma NoSlotIsTouchedTwice(s: State)
    requires Reachable(s)
    ensures s.writer.seen < |s.readStores| && s.reader.seen < |s.writeStores|
    ensures s.writer.pc.Move? ==> |s.accepted| - |s.ring| < s.readStores[s.writer.seen].count
    ensures s.reader.pc.Move? ==> |s.consumed| < s.writeStores[s.reader.seen].count
    ensures s.writer.pc.Move? && s.reader.pc.Move? ==> s.writer.pos != s.reader.pos
  {
    ReachableInv(s);
    if s.writer.pc.Move? && s.reader.pc.Move? && s.writer.pos == s.reader.pos {
      SameRemainder(|s.consumed|, |s.accepted|, |s.ring|);
    }
  }

  // The writer waits and the current value of the reader's index is the one it
  // waits to change; likewise for the reader.
  ghost predicate WriterBlocked(s: State) {
    s.writer.pc.Wait? && s.readStores != [] && s.readStores[|s.readStores| - 1].pos == s.writer.cached
  }

  ghost predicate ReaderBlocked(s: State) {
    s.reader.pc.Wait? && s.writeStores != [] && s.writeStores[|s.writeStores| - 1].pos == s.reader.cached
  }

  // A state over a ring of n slots in which write and read block each other.
  ghost predicate CanDeadlock(n: nat) {
    exists s: State :: |s.ring| == n && Reachable(s) && WriterBlocked(s) && ReaderBlocked(s)
  }

  // Blocking write and read can block each other forever only in a ring of one slot.
  lemma DeadlockOnlyWithOneSlot(n: nat)
    requires n > 0
    ensures CanDeadlock(n) <==> n == 1
  {
    if CanDeadlock(n) {
      var s: State :| |s.ring| == n && Reachable(s) && WriterBlocked(s) && ReaderBlocked(s);
      BothBlocked(s);
    }
    if n == 1 { OneSlotDeadlocks(); }
  }

  lemma BothBlocked(s: State)
    requires Reachable(s) && WriterBlocked(s) && ReaderBlocked(s)
    ensures |s.ring| == 1
  {
    ReachableInv(s);
    var n, w, r := |s.ring|, |s.accepted|, |s.consumed|;
    EmptyTest(n, w, r);
    FullTest(n, w, r);
  }

  // A ring of one slot with the given histories, writer and reader.
  function OneSlot(stored: seq<Store>, taken: seq<Store>, wpc: Pc, rpc: Pc): State {
    State([0], stored, taken, Writer(wpc, Write, [7], 0, 0, 0, 0, 0, [7], 0),
          Reader(rpc, Read, if rpc.Idle? then 0 else 1, 0, 0, 0, 0, 0, if rpc.Idle? then 0 else 1, 0), [], [])
  }

  lemma OneSlotDeadlocks()
    ensures CanDeadlock(1)
  {
    var s0, z := Init([0]), Store(0, 0);
    var run := OneSlotWriterWaits();
    run := Extend(s0, run, OneSlot([z, z], [z], Wait, Idle), ReaderCalls(Read, 1), OneSlot([z, z], [z], Wait, Test));
    run := Extend(s0, run, OneSlot([z, z], [z], Wait, Test), ReaderTests, OneSlot([z, z], [z], Wait, Load));
    run := Extend(s0, run, OneSlot([z, z], [z], Wait, Load), ReaderLoads(0), OneSlot([z, z], [z], Wait, Spin));
    assert [z] + [z] == [z, z];
    run := Extend(s0, run, OneSlot([z, z], [z], Wait, Spin), ReaderPublishes, OneSlot([z, z], [z, z], Wait, Wait));
    assert |[0]| == 1;
    assert Reachable(OneSlot([z, z], [z, z], Wait, Wait));
  }

  lemma OneSlotWriterWaits() returns (run: seq<Action>)
    ensures Run(Init([0]), run) == Some(OneSlot([Store(0, 0), Store(0, 0)], [Store(0, 0)], Wait, Idle))
  {
    var s0, z := Init([0]), Store(0, 0);
    run := Extend(s0, [], s0, WriterCalls(Write, [7]), OneSlot([z], [z], Test, Idle));
    run := Extend(s0, run, OneSlot([z], [z], Test, Idle), WriterTests, OneSlot([z], [z], Load, Idle));
    run := Extend(s0, run, OneSlot([z], [z], Load, Idle), WriterLoads(0), OneSlot([z], [z], Spin, Idle));
    assert [z] + [z] == [z, z];
    run := Extend(s0, run, OneSlot([z], [z], Spin, Idle), WriterPublishes, OneSlot([z, z], [z], Wait, Idle));
  }

  lemma Extend(s0: State, run: seq<Action>, s: State, a: Action, t: State) returns (run': seq<Action>)
    requires |s0.ring| > 0 && Run(s0, run) == Some(s) && Step(s, a) == Some(t)
    ensures Run(s0, run') == Some(t)
  {
    run' := run + [a];
    assert run'[..|run|] == run;
  }

  // ---------- what a returned call leaves visible ----------

  // Between calls each side has stored the index of all it has done.
  lemma IdleHasPublished(s: State)
    requires Reachable(s)
    ensures |s.writeStores| > 0 && |s.readStores| > 0
    ensures s.writer.pc.Idle? ==>
              s.writeStores[|s.writeStores| - 1] == Store(|s.accepted| % |s.ring|, |s.accepted|)
    ensures s.reader.pc.Idle? ==>
              s.readStores[|s.readStores| - 1] == Store(|s.consumed| % |s.ring|, |s.consumed|)
  {
    ReachableInv(s);
  }

  // A reader that loads the last store of a writer between calls goes on to deliver
  // the next element exactly when there is one.
  lemma FreshLoadDelivers(s: State)
    requires Reachable(s) && s.writer.pc.Idle? && s.reader.pc.Load? && |s.writeStores| > 0
    ensures Step(s, ReaderLoads(|s.writeStores| - 1)).Some?
    ensures var t := Step(s, ReaderLoads(|s.writeStores| - 1)).value;
            if |s.consumed| < |s.accepted| then
              && t.reader.pc.Move? && Step(t, ReaderMoves).Some?
              && Step(t, ReaderMoves).value.consumed == s.consumed + [s.accepted[|s.consumed|]]
            else !t.reader.pc.Move? && t.consumed == s.consumed
  {
    ReachableInv(s);
    var k := |s.writeStores| - 1;
    EmptyTest(|s.ring|, s.writeStores[k].count, |s.consumed|);
    ReaderStepKeepsInv(s, ReaderLoads(k));
  }

  // A writer that loads the last store of a reader between calls goes on to accept
  // the next element exactly when there is room for it.
  lemma FreshLoadAccepts(s: State)
    requires Reachable(s) && s.reader.pc.Idle? && s.writer.pc.Load? && |s.readStores| > 0
    ensures s.writer.input != [] && Step(s, WriterLoads(|s.readStores| - 1)).Some?
    ensures var t := Step(s, WriterLoads(|s.readStores| - 1)).value;
            if |s.accepted| - |s.consumed| < |s.ring| - 1 then
              && t.writer.pc.Move? && Step(t, WriterMoves).Some?
              && Step(t, WriterMoves).value.accepted == s.accepted + [s.writer.input[0]]
            else !t.writer.pc.Move? && t.accepted == s.accepted
  {
    ReachableInv(s);
    var k := |s.readStores| - 1;
    FullTest(|s.ring|, |s.accepted|, s.readStores[k].count);
    WriterStepKeepsInv(s, WriterLoads(k));
  }

  // ---------- whole calls, for any interleaving ----------

  ghost predicate NoWriterCall(run: seq<Action>) {
    forall k :: 0 <= k < |run| ==> !run[k].WriterCalls?
  }

  ghost predicate NoReaderCall(run: seq<Action>) {
    forall k :: 0 <= k < |run| ==> !run[k].ReaderCalls?
  }

  lemma {:induction false} WriteCallKept(s: State, run: seq<Action>)
    requires |s.ring| > 0 && Run(s, run).Some? && NoWriterCall(run)
    ensures var t := Run(s, run).value;
            && s.accepted <= t.accepted && t.writer.given == s.writer.given
            && t.writer.start == s.writer.start && t.writer.call == s.writer.call
    decreases |run|
  {
    if run != [] { WriteCallKept(s, run[..|run| - 1]); }
  }

  lemma {:induction false} ReadCallKept(s: State, run: seq<Action>)
    requires |s.ring| > 0 && Run(s, run).Some? && NoReaderCall(run)
    ensures var t := Run(s, run).value;
            && s.consumed <= t.consumed && t.reader.asked == s.reader.asked
            && t.reader.start == s.reader.start && t.reader.call == s.reader.call
    decreases |run|
  {
    if run != [] { ReadCallKept(s, run[..|run| - 1]); }
  }

  // A write call accepts a prefix of the elements it was called with, after all that
  // was accepted before it, and hands back the rest; the blocking form all of them,
  // the single form none when it hands its element back.  On return what it accepted
  // is published.
  lemma WriteCallAccepts(u: State, call: WriteCall, input: seq<int>, s: State, run: seq<Action>, t: State)
    requires Reachable(u) && |u.ring| > 0 && Step(u, WriterCalls(call, input)) == Some(s)
    requires Run(s, run) == Some(t) && NoWriterCall(run) && t.writer.pc.Return?
    ensures u.accepted <= t.accepted && t.accepted[|u.accepted|..] + t.writer.input == input
    ensures call.Write? ==> t.writer.input == []
    ensures call.WriteOne? && t.writer.input != [] ==> t.accepted == u.accepted
    ensures |t.ring| > 0 && Step(t, WriterReturns).Some?
    ensures var r := Step(t, WriterReturns).value;
            && r.writer.pc.Idle? && r.accepted == t.accepted
            && r.writeStores == t.writeStores + [Store(|t.accepted| % |t.ring|, |t.accepted|)]
  {
    WriteCallKept(s, run);
    CallReachable(u, WriterCalls(call, input), run, t);
    WriteReturnsTheRest(t);
    ReachableInv(t);
  }

  // A read call delivers the next elements accepted, at most as many as asked for; the
  // blocking form all of them.  On return what it delivered is published.
  lemma ReadCallDelivers(u: State, call: ReadCall, want: nat, s: State, run: seq<Action>, t: State)
    requires Reachable(u) && |u.ring| > 0 && Step(u, ReaderCalls(call, want)) == Some(s)
    requires Run(s, run) == Some(t) && NoReaderCall(run) && t.reader.pc.Return?
    ensures u.consumed <= t.consumed <= t.accepted && |t.consumed| - |u.consumed| + t.reader.want == want
    ensures call.Read? ==> t.reader.want == 0
    ensures |t.ring| > 0 && Step(t, ReaderReturns).Some?
    ensures var r := Step(t, ReaderReturns).value;
            && r.reader.pc.Idle? && r.consumed == t.consumed
            && r.readStores == t.readStores + [Store(|t.consumed| % |t.ring|, |t.consumed|)]
  {
    ReadCallKept(s, run);
    CallReachable(u, ReaderCalls(call, want), run, t);
    ReadReturnsTheNext(t);
    ReturnPublishes(t);
  }

  lemma ReturnPublishes(t: State)
    requires Reachable(t) && t.reader.pc.Return?
    ensures |t.ring| > 0 && Step(t, ReaderReturns).Some? && t.consumed <= t.accepted
    ensures var r := Step(t, ReaderReturns).value;
            && r.reader.pc.Idle? && r.consumed == t.consumed
            && r.readStores == t.readStores + [Store(|t.consumed| % |t.ring|, |t.consumed|)]
  {
    ReachableInv(t);
  }

  lemma CallReachable(u: State, a: Action, run: seq<Action>, t: State)
    requires Reachable(u) && |u.ring| > 0 && Step(u, a).Some? && Run(Step(u, a).value, run) == Some(t)
    ensures Reachable(t)
  {
    var ring: seq<int>, before :| |ring| > 0 && Run(Init(ring), before) == Some(u);
    RunsJoin(Init(ring), before, [a], u);
    assert [a][..0] == [];
    assert Run(u, [a]) == Step(u, a);
    RunsJoin(Init(ring), before + [a], run, Step(u, a).value);
  }

  lemma {:induction false} RunsJoin(s: State, first: seq<Action>, second: seq<Action>, m: State)
    requires |s.ring| > 0 && Run(s, first) == Some(m) && |m.ring| > 0
    ensures Run(s, first + second) == Run(m, second)
    decreases |second|
  {
    if second == [] {
      assert first + second == first;
    } else {
      var init := second[..|second| - 1];
      RunsJoin(s, first, init, m);
      assert (first + second)[..|first + second| - 1] == first + init;
    }
  }

  // ---------- a call running alone ----------

  ghost predicate ByReader(a: Action) {
    a.ReaderCalls? || a.ReaderTests? || a.ReaderLoads? || a.ReaderPublishes? || a.ReaderWakes? || a.ReaderMoves? ||
    a.ReaderReturns?
  }

  // t is reached from s by the reader alone, the writer being between calls.
  ghost predicate ReadsAlone(s: State, t: State) {
    && |s.ring| > 0 && |t.ring| > 0 && Reachable(t)
    && t.writer == s.writer && t.writeStores == s.writeStores && t.accepted == s.accepted
    && exists run: seq<Action> :: (forall k :: 0 <= k < |run| ==> ByReader(run[k])) && Run(s, run) == Some(t)
  }

  lemma ReadsOn(s: State, t: State, a: Action)
    requires ReadsAlone(s, t) && ByReader(a) && Step(t, a).Some?
    ensures ReadsAlone(s, Step(t, a).value)
  {
    var run: seq<Action> :| (forall k :: 0 <= k < |run| ==> ByReader(run[k])) && Run(s, run) == Some(t);
    var run' := run + [a];
    assert run'[..|run|] == run;
    assert Run(s, run') == Some(Step(t, a).value);
    assert Run(Step(t, a).value, []) == Some(Step(t, a).value);
    CallReachable(t, a, [], Step(t, a).value);
  }

  function Least(a: int, b: int): int {
    if a < b then a else b
  }

  // From the test of its loop to where it moves an element, or has no more to do.
  lemma TestGoesOn(s: State, t: State) returns (u: State)
    requires ReadsAlone(s, t) && t.reader.pc.Test? && s.writer.pc.Idle?
    requires t.reader.call.Read? ==> t.reader.want <= |t.accepted| - |t.consumed|
    ensures ReadsAlone(s, u) && u.reader.want == t.reader.want && u.reader.call == t.reader.call
    ensures u.consumed == t.consumed
    ensures if t.reader.want > 0 && |t.consumed| < |t.accepted| then u.reader.pc.Move? else u.reader.pc.Return?
  {
    ReachableInv(t);
    ReadsOn(s, t, ReaderTests);
    u := Step(t, ReaderTests).value;
    if u.reader.pc.Load? { u := LoadLast(s, u); }
  }

  lemma LoadLast(s: State, t: State) returns (u: State)
    requires ReadsAlone(s, t) && t.reader.pc.Load? && s.writer.pc.Idle?
    requires t.reader.call.Read? ==> t.reader.want <= |t.accepted| - |t.consumed|
    ensures ReadsAlone(s, u) && u.reader.want == t.reader.want && u.reader.call == t.reader.call
    ensures u.consumed == t.consumed && (if |t.consumed| < |t.accepted| then u.reader.pc.Move? else u.reader.pc.Return?)
  {
    ReachableInv(t);
    var k := |t.writeStores| - 1;
    EmptyTest(|t.ring|, t.writeStores[k].count, |t.consumed|);
    ReadsOn(s, t, ReaderLoads(k));
    u := Step(t, ReaderLoads(k)).value;
  }

  lemma MoveOnce(s: State, t: State) returns (u: State)
    requires ReadsAlone(s, t) && t.reader.pc.Move?
    ensures t.reader.want > 0 && |t.consumed| < |t.accepted|
    ensures ReadsAlone(s, u) && u.reader.pc.Test? && u.reader.want == t.reader.want - 1 && u.reader.call == t.reader.call
    ensures u.consumed == t.consumed + [t.accepted[|t.consumed|]]
  {
    ReachableInv(t);
    ReadsOn(s, t, ReaderMoves);
    u := Step(t, ReaderMoves).value;
    DeliverDequeues(t, u);
    assert Queue(t)[0] == t.accepted[|t.consumed|];
  }

  lemma ReturnOnce(s: State, t: State) returns (u: State)
    requires ReadsAlone(s, t) && t.reader.pc.Return?
    ensures ReadsAlone(s, u) && u.reader.pc.Idle? && u.consumed == t.consumed
  {
    ReadsOn(s, t, ReaderReturns);
    u := Step(t, ReaderReturns).value;
  }

  lemma AllConsumed(s: State, t: State)
    requires ReadsAlone(s, t)
    ensures t.consumed <= s.accepted && t.accepted == s.accepted && |t.consumed| <= |s.accepted|
  {
    ReachableInv(t);
  }

  // One turn of the loop that delivers an element.
  lemma DeliverOne(s: State, t: State) returns (m: State)
    requires ReadsAlone(s, t) && t.reader.pc.Test? && s.writer.pc.Idle?
    requires t.reader.call.Read? ==> t.reader.want <= |t.accepted| - |t.consumed|
    requires t.reader.want > 0 && |t.consumed| < |t.accepted|
    ensures ReadsAlone(s, m) && m.reader.pc.Test? && m.reader.want == t.reader.want - 1
    ensures m.reader.call == t.reader.call && m.consumed == t.consumed + [t.accepted[|t.consumed|]]
  {
    var r := TestGoesOn(s, t);
    m := MoveOnce(s, r);
  }

  // The last turn, that finds nothing more to do.
  lemma FinishRead(s: State, t: State) returns (u: State)
    requires ReadsAlone(s, t) && t.reader.pc.Test? && s.writer.pc.Idle?
    requires t.reader.call.Read? ==> t.reader.want <= |t.accepted| - |t.consumed|
    requires t.reader.want == 0 || |t.consumed| >= |t.accepted|
    ensures ReadsAlone(s, u) && u.reader.pc.Idle? && u.consumed == t.consumed
  {
    var r := TestGoesOn(s, t);
    u := ReturnOnce(s, r);
  }

  // From the test of its loop a read call consumes as many elements as it wants and
  // there are.
  lemma {:induction false} ReadLoop(s: State, t: State, c: nat, want: nat) returns (u: State)
    requires ReadsAlone(s, t) && t.reader.pc.Test? && s.writer.pc.Idle?
    requires c == |t.consumed| && want == t.reader.want
    requires t.reader.call.Read? ==> want <= |t.accepted| - c
    ensures ReadsAlone(s, u) && u.reader.pc.Idle? && |u.consumed| == c + Least(want, |s.accepted| - c)
    decreases want
  {
    AllConsumed(s, t);
    if want > 0 && c < |s.accepted| {
      var m := DeliverOne(s, t);
      AllConsumed(s, m);
      u := ReadLoop(s, m, c + 1, want - 1);
    } else {
      u := FinishRead(s, t);
    }
  }

  lemma PrefixesMeet(a: seq<int>, b: seq<int>, all: seq<int>)
    requires a <= all && b <= all && |a| <= |b|
    ensures b == a + all[|a|..|b|]
  {
    assert all[..|b|] == all[..|a|] + all[|a|..|b|];
  }

  // With both sides between calls, a read call running alone delivers exactly the
  // next elements: as many as it wants and there are.
  lemma ReadAlone(s: State, call: ReadCall, want: nat) returns (u: State)
    requires Reachable(s) && s.writer.pc.Idle? && s.reader.pc.Idle?
    requires call.Read? ==> want <= |s.accepted| - |s.consumed|
    ensures ReadsAlone(s, u) && u.reader.pc.Idle? && |s.consumed| <= |s.accepted|
    ensures u.consumed == s.consumed +
                          s.accepted[|s.consumed|..|s.consumed| + Least(want, |s.accepted| - |s.consumed|)]
  {
    var t := CallOnce(s, call, want);
    AllConsumed(s, t);
    u := ReadLoop(s, t, |s.consumed|, want);
    AllConsumed(s, u);
    PrefixesMeet(s.consumed, u.consumed, s.accepted);
  }

  lemma CallOnce(s: State, call: ReadCall, want: nat) returns (t: State)
    requires Reachable(s) && s.reader.pc.Idle?
    ensures ReadsAlone(s, t) && t.reader.pc.Test? && t.reader.want == want && t.reader.call == call
    ensures t.consumed == s.consumed && |s.consumed| <= |s.accepted|
  {
    ReachableInv(s);
    assert Run(s, []) == Some(s);
    ReadsOn(s, s, ReaderCalls(call, want));
    t := Step(s, ReaderCalls(call, want)).value;
  }
}
