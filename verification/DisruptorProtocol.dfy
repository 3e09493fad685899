// The multi-producer ring with a worker pool, as a transition system.  One
// action is one atomic load, store or compare-and-set of one thread; the
// minimum over the gating sequences is sampled one sequence per action, so any
// number of other actions may fall between two samples.
module DisruptorProtocol {
  import opened Options

  const INITIAL: int := -1                       // Sequence::InitialCursorValue
  const INT64_MIN: int := -0x8000_0000_0000_0000

  // The two claiming entry points of MultiProducerSequencer.
  datatype Call = Next | TryNext

  // Where a producer stands inside a claim of `count` sequences.
  datatype ProducerPc =
    | Idle
    | ReadCursor(call: Call, count: int)
    | ReadCache(call: Call, count: int, current: int)
    | Sample(call: Call, count: int, current: int, at: nat, min: int)
    | Cas(call: Call, count: int, current: int)

  // `pending` holds the sequences claimed by this producer and not yet published.
  datatype Producer = Producer(pc: ProducerPc, pending: set<int>)

  // Where a worker stands in the loop of WorkProcessor::run.
  datatype WorkerPc =
    | LoadWork
    | Report(next: int)
    | Claim(next: int)
    | Check(next: int)
    | Wait(next: int)
    | Scan(next: int, available: int, at: int)
    | Handle(next: int)
    | Halted(next: int)

  // `cached` is cachedAvailableSequence.
  datatype Worker = Worker(pc: WorkerPc, cached: int)

  // Where the thread evaluating hasBacklog stands; `listed` records whether the
  // pool was running when the list of sequences was built.
  datatype Observer =
    | Off
    | GotCursor(cursor: int)
    | Scanning(cursor: int, at: nat)
    | Answer(cursor: int, backlog: bool, listed: bool)

  datatype Range = Range(lo: int, hi: int)
  datatype Handled = Handled(worker: nat, sequence: int, event: int)

  // What has happened so far; no action reads it to decide what to do.
  datatype History = History(
    claims: seq<Range>,           // successful producer claims, oldest first
    claimer: map<int, nat>,       // producer that claimed each sequence
    written: map<int, int>,       // last event stored for each sequence
    published: set<int>,
    owner: map<int, nat>,         // worker that claimed each sequence
    handled: seq<Handled>,        // completed handler calls, oldest first
    processed: set<int>)

  datatype State = State(
    size: nat,                    // m_bufferSize
    cursor: int,                  // m_cursor
    gatingCache: int,             // m_gatingSequenceCache
    work: int,                    // m_workSequence
    progress: seq<int>,           // m_sequence of each worker
    flags: seq<int>,              // m_availableBuffer
    entries: seq<int>,            // m_entries
    producers: seq<Producer>,
    workers: seq<Worker>,
    running: bool,                // WorkerPool::m_running
    observer: Observer,
    history: History)

  // A truncating cast to a signed 32-bit integer.
  function ToInt32(x: int): int {
    var r := x % 0x1_0000_0000;
    if r < 0x8000_0000 then r else r - 0x1_0000_0000
  }

  // The lap number that marks a published slot, as a 32-bit value.
  function Flag(size: nat, sequence: int): int
    requires size > 0
  {
    ToInt32(sequence / size)
  }

  function Slot(size: nat, sequence: int): (i: int)
    requires size > 0
    ensures 0 <= i < size
  {
    sequence % size
  }

  // The array sizes agree.
  predicate Shape(s: State) {
    && 0 < s.size == |s.flags| == |s.entries|
    && |s.workers| == |s.progress|
  }

  // The gating sequences in the order of WorkerPool::getWorkerSequences.
  function Gating(s: State): seq<int> {
    s.progress + [s.work]
  }

  function IsAvailable(s: State, sequence: int): bool
    requires 0 < s.size == |s.flags|
  {
    s.flags[Slot(s.size, sequence)] == Flag(s.size, sequence)
  }

  function Min(a: int, b: int): int { if b < a then b else a }

  function Interval(lo: int, hi: int): (r: set<int>)
    ensures forall x :: x in r <==> lo <= x <= hi
    decreases hi - lo
  {
    if hi < lo then {} else Interval(lo, hi - 1) + {hi}
  }

  function RangeMap(lo: int, hi: int, p: nat): map<int, nat> {
    map x | x in Interval(lo, hi) :: p
  }

  // A fresh ring: every sequence at its initial value, every flag -1.
  function Init(size: nat, entries: seq<int>, producers: nat, workers: nat): State {
    State(size, INITIAL, INITIAL, INITIAL, seq(workers, _ => INITIAL), seq(size, _ => -1), entries,
          seq(producers, _ => Producer(Idle, {})), seq(workers, _ => Worker(LoadWork, INT64_MIN)),
          true, Off, History([], map[], map[], {}, map[], [], {}))
  }

  datatype Action =
    // producer p
    | Begin(p: nat, call: Call, count: int)
    | LoadCursor(p: nat)
    | LoadCache(p: nat)
    | SampleOne(p: nat)
    | Decide(p: nat)
    | CasCursor(p: nat)
    | Write(p: nat, sequence: int, event: int)
    | Publish(p: nat, sequence: int)
    // worker w
    | LoadWorkSequence(w: nat)
    | StoreProgress(w: nat)
    | CasWork(w: nat)
    | CheckCached(w: nat)
    | LoadAvailable(w: nat)
    | ScanOne(w: nat)
    | Finish(w: nat)
    | Leave(w: nat)
    // the pool and the thread evaluating hasBacklog
    | HaltPool
    | ObserveCursor
    | ObserveList
    | ObserveOne

  function SetProducer(s: State, p: nat, pc: ProducerPc): State
    requires p < |s.producers|
  {
    s.(producers := s.producers[p := s.producers[p].(pc := pc)])
  }

  function SetWorker(s: State, w: nat, pc: WorkerPc): State
    requires w < |s.workers|
  {
    s.(workers := s.workers[w := s.workers[w].(pc := pc)])
  }

  // One action of producer p; None when p is not at that point.
  function ProducerStep(s: State, p: nat, a: Action): (r: Option<State>)
    requires 0 < s.size == |s.flags| == |s.entries| && p < |s.producers|
    ensures r.Some? ==> (Shape(s) ==> Shape(r.value)) && r.value.size == s.size
  {
    var me := s.producers[p];
    match (a, me.pc)
    case (Begin(_, call, count), Idle) =>
      // a count below one throws before anything is read
      Some(if count < 1 then s else SetProducer(s, p, ReadCursor(call, count)))
    case (LoadCursor(_), ReadCursor(call, count)) =>
      Some(SetProducer(s, p, ReadCache(call, count, s.cursor)))
    case (LoadCache(_), ReadCache(call, count, current)) =>
      if current + count - s.size > s.gatingCache || s.gatingCache > current then
        Some(SetProducer(s, p, Sample(call, count, current, 0, current)))
      else
        Some(SetProducer(s, p, Cas(call, count, current)))
    case (SampleOne(_), Sample(call, count, current, at, min)) =>
      if at < |Gating(s)| then
        Some(SetProducer(s, p, Sample(call, count, current, at + 1, Min(min, Gating(s)[at]))))
      else None
    case (Decide(_), Sample(call, count, current, at, min)) =>
      if at < |Gating(s)| then None
      else
        var full := current + count - s.size > min;
        match call {
          case Next =>       // spin when full, refresh the cache and retry otherwise
            if full then Some(SetProducer(s, p, ReadCursor(call, count)))
            else Some(SetProducer(s, p, ReadCursor(call, count)).(gatingCache := min))
          case TryNext =>    // refresh the cache, then throw when full
            Some(SetProducer(s, p, if full then Idle else Cas(call, count, current)).(gatingCache := min))
        }
    case (CasCursor(_), Cas(call, count, current)) =>
      if s.cursor != current then
        Some(SetProducer(s, p, ReadCursor(call, count)))
      else
        var lo, hi := current + 1, current + count;
        Some(s.(cursor := hi,
                producers := s.producers[p := Producer(Idle, me.pending + Interval(lo, hi))],
                history := s.history.(claims := s.history.claims + [Range(lo, hi)],
                                      claimer := s.history.claimer + RangeMap(lo, hi, p))))
    case (Write(_, sequence, event), _) =>
      if sequence !in me.pending then None
      else
        Some(s.(entries := s.entries[Slot(s.size, sequence) := event],
                history := s.history.(written := s.history.written[sequence := event])))
    case (Publish(_, sequence), _) =>
      if sequence !in me.pending then None
      else
        Some(s.(flags := s.flags[Slot(s.size, sequence) := Flag(s.size, sequence)],
                producers := s.producers[p := me.(pending := me.pending - {sequence})],
                history := s.history.(published := s.history.published + {sequence})))
    case _ => None
  }

  // One action of worker w; None when w is not at that point.
  function WorkerStep(s: State, w: nat, a: Action): (r: Option<State>)
    requires 0 < s.size == |s.flags| == |s.entries| && w < |s.workers| == |s.progress|
    ensures r.Some? ==> Shape(r.value) && r.value.size == s.size
  {
    var me := s.workers[w];
    match (a, me.pc)
    case (LoadWorkSequence(_), LoadWork) =>
      Some(SetWorker(s, w, Report(s.work + 1)))
    case (StoreProgress(_), Report(next)) =>
      Some(SetWorker(s, w, Claim(next)).(progress := s.progress[w := next - 1]))
    case (CasWork(_), Claim(next)) =>
      if s.work != next - 1 then Some(SetWorker(s, w, LoadWork))
      else
        Some(SetWorker(s, w, Check(next)).(work := next,
             history := s.history.(owner := s.history.owner[next := w])))
    case (CheckCached(_), Check(next)) =>
      Some(SetWorker(s, w, if me.cached >= next then Handle(next) else Wait(next)))
    case (LoadAvailable(_), Wait(next)) =>
      // a wait that gives up early returns a bound below next
      if s.cursor < next then
        Some(s.(workers := s.workers[w := Worker(Check(next), s.cursor)]))
      else
        Some(SetWorker(s, w, Scan(next, s.cursor, next)))
    case (ScanOne(_), Scan(next, available, at)) =>
      if at > available then
        Some(s.(workers := s.workers[w := Worker(Check(next), available)]))
      else if IsAvailable(s, at) then
        Some(SetWorker(s, w, Scan(next, available, at + 1)))
      else
        Some(s.(workers := s.workers[w := Worker(Check(next), at - 1)]))
    case (Finish(_), Handle(next)) =>
      Some(SetWorker(s, w, LoadWork).(
           history := s.history.(handled := s.history.handled + [Handled(w, next, s.entries[Slot(s.size, next)])],
                                 processed := s.history.processed + {next})))
    case (Leave(_), Wait(next)) =>
      // halting alerts the workers before the pool's own flag is cleared
      Some(SetWorker(s, w, Halted(next)))
    case _ => None
  }

  function ObserverStep(s: State, a: Action): Option<State>
  {
    match (a, s.observer)
    case (HaltPool, _) => Some(s.(running := false))
    case (ObserveCursor, _) => Some(s.(observer := GotCursor(s.cursor)))
    case (ObserveList, GotCursor(cursor)) =>
      // a pool that is not running contributes no sequences
      Some(s.(observer := if s.running then Scanning(cursor, 0) else Answer(cursor, false, false)))
    case (ObserveOne, Scanning(cursor, at)) =>
      if at >= |Gating(s)| then Some(s.(observer := Answer(cursor, false, true)))
      else if cursor > Gating(s)[at] then Some(s.(observer := Answer(cursor, true, true)))
      else Some(s.(observer := Scanning(cursor, at + 1)))
    case _ => None
  }

  // The effect of one action, or None when it is not enabled.
  function Step(s: State, a: Action): (r: Option<State>)
    requires Shape(s)
    ensures r.Some? ==> Shape(r.value) && r.value.size == s.size
  {
    match a
    case Begin(p, _, _) => if p < |s.producers| then ProducerStep(s, p, a) else None
    case LoadCursor(p) => if p < |s.producers| then ProducerStep(s, p, a) else None
    case LoadCache(p) => if p < |s.producers| then ProducerStep(s, p, a) else None
    case SampleOne(p) => if p < |s.producers| then ProducerStep(s, p, a) else None
    case Decide(p) => if p < |s.producers| then ProducerStep(s, p, a) else None
    case CasCursor(p) => if p < |s.producers| then ProducerStep(s, p, a) else None
    case Write(p, _, _) => if p < |s.producers| then ProducerStep(s, p, a) else None
    case Publish(p, _) => if p < |s.producers| then ProducerStep(s, p, a) else None
    case LoadWorkSequence(w) => if w < |s.workers| then WorkerStep(s, w, a) else None
    case StoreProgress(w) => if w < |s.workers| then WorkerStep(s, w, a) else None
    case CasWork(w) => if w < |s.workers| then WorkerStep(s, w, a) else None
    case CheckCached(w) => if w < |s.workers| then WorkerStep(s, w, a) else None
    case LoadAvailable(w) => if w < |s.workers| then WorkerStep(s, w, a) else None
    case ScanOne(w) => if w < |s.workers| then WorkerStep(s, w, a) else None
    case Finish(w) => if w < |s.workers| then WorkerStep(s, w, a) else None
    case Leave(w) => if w < |s.workers| then WorkerStep(s, w, a) else None
    case _ => ObserverStep(s, a)
  }

  // The state after a run of actions, or None when one of them was not enabled.
  function Run(s: State, run: seq<Action>): (r: Option<State>)
    requires Shape(s)
    ensures r.Some? ==> Shape(r.value)
    decreases |run|
  {
    if run == [] then Some(s)
    else
      var t := Run(s, run[..|run| - 1]);
      if t.None? then None
      else Step(t.value, run[|run| - 1])
  }
}
