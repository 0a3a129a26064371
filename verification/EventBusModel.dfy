/**
 The asynchronous event bus as a step system.

 Every atomic action of the implementation is one step: taking or releasing the publish
 mutex, a store or load of the batch ceiling, a channel send or receive, closing the stop
 channel. The dispatcher inspects one priority queue per step, so publishers may act between
 any two of its inspections. A run is any interleaving of the steps of one dispatcher, one
 closer and any number of publishing calls.
*/
module EventBusModel {
  import opened Options

  // ---------- events and priorities ----------

  type Priority = p: int | 0 <= p < 256

  const NORMAL: Priority := 0
  const HIGH: Priority := 1
  const CRITICAL: Priority := 2
  const LOW: Priority := 3
  const DEFERRED: Priority := 4

  const LEVELS: nat := 5

  /** The dispatcher's drain order, highest priority first. */
  const PRIORITY_ORDER: seq<Priority> := [CRITICAL, HIGH, NORMAL, LOW, DEFERRED]

  datatype Event = Event(kind: nat, entity: nat, timestamp: int, priority: Priority)

  function NormalizePriority(p: Priority): Priority {
    if p >= LEVELS then NORMAL else p
  }

  /** The position of an event's queue in the drain order; 0 is served first. */
  function Level(e: Event): (level: nat)
    ensures level < LEVELS
  {
    var p := NormalizePriority(e.priority);
    if p == CRITICAL then 0 else if p == HIGH then 1 else if p == NORMAL then 2 else if p == LOW then 3 else 4
  }

  // A level is the index at which the drain order lists the event's normalised priority.
  lemma LevelIsDrainPosition(e: Event, i: nat)
    requires i < LEVELS
    ensures Level(e) == i <==> PRIORITY_ORDER[i] == NormalizePriority(e.priority)
  {
  }

  // ---------- configuration ----------

  datatype Strategy = Block | DropOldest | DropLatest

  datatype Config = Config(strategy: Strategy, queueSize: int) {
    /** Channel capacity: a size that is not positive selects the default. */
    function Capacity(): (c: nat)
      ensures c >= 1
    {
      if queueSize <= 0 then 256 else queueSize
    }
  }

  // ---------- state ----------

  /** A queued event: which publishing call wrote it, and its position in that call's argument list. */
  datatype Entry = Entry(event: Event, call: nat, pos: nat)

  datatype Removal = Removal(entry: Entry, evicted: bool)

  /** Where inside one enqueue the publisher is. */
  datatype Phase =
    | Try          // the non-blocking send
    | Poke         // Block: wake the dispatcher before the blocking send
    | BlockedSend  // Block: the send that waits for space or for stop
    | EvictSelect  // DropOldest: receive from the full queue, or observe stop

  datatype PubPc =
    | CheckClosing
    | Raise(i: nat)                                          // store ceiling i + 1; at LEVELS, store 0
    | Pass(i: nat, n: nat)                                   // pass i looks at event n
    | Enqueue(i: nat, n: nat, phase: Phase, evicted: bool)   // event n goes to queue i
    | Unlock

  /** Who holds the publish mutex. */
  datatype Holder =
    | Free
    | Publisher(call: nat, batch: bool, events: seq<Event>, pc: PubPc, wrote: bool)
    | Gate  // Close, waiting out earlier publishers

  datatype DispPc =
    | CheckStop
    | LoadCeiling
    | Scan(limit: nat, k: nat)          // inspect queue k; only queues below limit are considered
    | Park                              // blocked on stop or wake-up
    | Drain(k: nat, drained: bool)
    | Exited

  datatype CloserPc =
    | Idle
    | CloseStop      // closing is set
    | AwaitGate      // the stop channel is closed
    | HoldGate
    | AwaitWorker
    | FinalDrain(k: nat, drained: bool)
    | Closed

  datatype State = State(
    queues: seq<seq<Entry>>,      // one channel per level
    token: bool,                  // the one-slot wake-up channel
    ceiling: nat,                 // batchPriorityCeiling
    holder: Holder,
    owed: nat,                    // calls past their unlock that still have to signal
    disp: DispPc,
    closer: CloserPc,
    // history, read by no step
    nextCall: nat,
    log: seq<Entry>,              // events handed to the handlers, in order
    accepted: seq<seq<Entry>>,    // per level, everything ever sent into the queue
    removed: seq<seq<Removal>>,   // per level, everything ever received from it
    shed: seq<Entry>,             // events an enqueue gave up on
    calm: set<nat>,               // batches whose first ceiling was raised while no wide scan was under way
    silent: bool                  // some batch finished without writing any event
  ) {
    predicate Closing() { !closer.Idle? }
    predicate Stopped() { !closer.Idle? && !closer.CloseStop? }
    /** The dispatcher no longer follows the priority scan. */
    predicate Draining() { disp.Drain? || disp.Exited? }
    /** A scan is under way that may still go past the most urgent queue. */
    predicate WideScan() { disp.Scan? && disp.limit >= 2 }
  }

  function Init(): State {
    State(seq(LEVELS, _ => []), false, 0, Free, 0, CheckStop, Idle,
          0, [], seq(LEVELS, _ => []), seq(LEVELS, _ => []), [], {}, false)
  }

  // ---------- publisher steps ----------

  function AfterEvent(h: Holder): PubPc
    requires h.Publisher? && h.pc.Enqueue?
  {
    if h.batch then Pass(h.pc.i, h.pc.n + 1) else Unlock
  }

  function Current(h: Holder): Entry
    requires h.Publisher? && h.pc.Enqueue? && h.pc.n < |h.events|
  {
    Entry(h.events[h.pc.n], h.call, h.pc.n)
  }

  predicate Ready(s: State) {
    && |s.queues| == |s.accepted| == |s.removed| == LEVELS
    && s.holder.Publisher? && s.holder.pc.Enqueue?
    && s.holder.pc.i < LEVELS && s.holder.pc.n < |s.holder.events|
  }

  function Accept(s: State): State
    requires Ready(s)
  {
    var i, x := s.holder.pc.i, Current(s.holder);
    s.(queues := s.queues[i := s.queues[i] + [x]],
       accepted := s.accepted[i := s.accepted[i] + [x]],
       holder := s.holder.(pc := AfterEvent(s.holder), wrote := true))
  }

  function GiveUp(s: State): State
    requires Ready(s)
  {
    s.(shed := s.shed + [Current(s.holder)],
       holder := s.holder.(pc := AfterEvent(s.holder)))
  }

  function Evict(s: State): State
    requires Ready(s) && s.queues[s.holder.pc.i] != []
  {
    var i := s.holder.pc.i;
    s.(queues := s.queues[i := s.queues[i][1..]],
       removed := s.removed[i := s.removed[i] + [Removal(s.queues[i][0], true)]],
       holder := s.holder.(pc := s.holder.pc.(phase := Try, evicted := true)))
  }

  function SetPhase(s: State, phase: Phase): State
    requires s.holder.Publisher? && s.holder.pc.Enqueue?
  {
    s.(holder := s.holder.(pc := s.holder.pc.(phase := phase)))
  }

  /** One action of an enqueue in progress. */
  function EnqueueStep(cfg: Config, s: State): Option<State> {
    if !Ready(s) then None else
    var q := s.queues[s.holder.pc.i];
    match s.holder.pc.phase
    case Try =>
      if |q| < cfg.Capacity() then Some(Accept(s)) else
      (match cfg.strategy
       case Block => Some(SetPhase(s, Poke))
       case DropOldest => Some(SetPhase(s, EvictSelect))
       case DropLatest => Some(GiveUp(s)))
    case Poke => Some(SetPhase(s.(token := true), BlockedSend))
    case BlockedSend => if |q| < cfg.Capacity() then Some(Accept(s)) else None
    case EvictSelect =>
      if q != [] then Some(Evict(s))
      else if s.Stopped() then None
      else Some(SetPhase(s, Try))
  }

  /** The lock holder after an action that is not part of an enqueue. */
  function Advance(h: Holder, closing: bool): Holder
    requires h.Publisher? && !h.pc.Enqueue?
  {
    match h.pc
    case CheckClosing =>
      if closing then Free
      else h.(pc := if h.batch then Raise(0) else if h.events == [] then Unlock
          else Enqueue(Level(h.events[0]), 0, Try, false))
    case Raise(i) => h.(pc := if i < LEVELS then Pass(i, 0) else Unlock)
    case Pass(i, n) =>
      h.(pc := if n >= |h.events| then Raise(i + 1)
               else if Level(h.events[n]) != i then Pass(i, n + 1)
               else Enqueue(i, n, Try, false))
    case Unlock => Free
  }

  /** The next action of the call that holds the publish mutex. */
  function PublisherStep(cfg: Config, s: State): Option<State> {
    if !s.holder.Publisher? then None
    else if s.holder.pc.Enqueue? then EnqueueStep(cfg, s)
    else
      var h := s.holder;
      Some(s.(holder := Advance(h, s.Closing()),
              ceiling := if h.pc.Raise? then (if h.pc.i < LEVELS then h.pc.i + 1 else 0) else s.ceiling,
              calm := if h.pc == Raise(0) && !s.WideScan() then s.calm + {h.call} else s.calm,
              owed := if h.pc.Unlock? && h.wrote then s.owed + 1 else s.owed,
              silent := s.silent || (h.pc.Unlock? && h.batch && !h.wrote)))
  }

  /** A select of the lock holder takes its stop branch. */
  function PublisherStopStep(s: State): Option<State> {
    if Ready(s) && s.Stopped() && (s.holder.pc.phase.BlockedSend? || s.holder.pc.phase.EvictSelect?)
    then Some(GiveUp(s)) else None
  }

  // ---------- dispatcher and closer steps ----------

  function Serve(s: State, k: nat): State
    requires |s.queues| == |s.removed| == LEVELS && k < LEVELS && s.queues[k] != []
  {
    s.(queues := s.queues[k := s.queues[k][1..]],
       removed := s.removed[k := s.removed[k] + [Removal(s.queues[k][0], false)]],
       log := s.log + [s.queues[k][0]])
  }

  function DispatcherStep(s: State): Option<State> {
    if |s.queues| != LEVELS || |s.removed| != LEVELS then None else
    match s.disp
    case CheckStop => Some(s.(disp := if s.Stopped() then Drain(0, false) else LoadCeiling))
    case LoadCeiling => Some(s.(disp := Scan(if s.ceiling == 0 then LEVELS else s.ceiling, 0)))
    case Scan(limit, k) =>
      if k >= LEVELS then None
      else if s.queues[k] != [] then Some(Serve(s, k).(disp := CheckStop))
      else if k + 1 < limit then Some(s.(disp := Scan(limit, k + 1)))
      else Some(s.(disp := Park))
    case Park => if s.token then Some(s.(token := false, disp := CheckStop)) else None
    case Drain(k, drained) =>
      if k >= LEVELS then Some(s.(disp := if drained then Drain(0, false) else Exited))
      else if s.queues[k] != [] then Some(Serve(s, k).(disp := Drain(k + 1, true)))
      else Some(s.(disp := Drain(k + 1, drained)))
    case Exited => None
  }

  function DispatcherStopStep(s: State): Option<State> {
    if s.disp.Park? && s.Stopped() then Some(s.(disp := Drain(0, false))) else None
  }

  function CloserStep(s: State): Option<State> {
    if |s.queues| != LEVELS || |s.removed| != LEVELS then None else
    match s.closer
    case Idle => Some(s.(closer := CloseStop))
    case CloseStop => Some(s.(closer := AwaitGate))
    case AwaitGate => if s.holder.Free? then Some(s.(holder := Gate, closer := HoldGate)) else None
    case HoldGate => Some(s.(holder := Free, closer := AwaitWorker))
    case AwaitWorker => if s.disp.Exited? then Some(s.(closer := FinalDrain(0, false))) else None
    case FinalDrain(k, drained) =>
      if k >= LEVELS then Some(s.(closer := if drained then FinalDrain(0, false) else Closed))
      else if s.queues[k] != [] then Some(Serve(s, k).(closer := FinalDrain(k + 1, true)))
      else Some(s.(closer := FinalDrain(k + 1, drained)))
    case Closed => None
  }

  // ---------- steps and runs ----------

  datatype Step =
    | Acquire(batch: bool, events: seq<Event>)  // some call reaches the publish mutex and takes it
    | PublisherMoves
    | PublisherStops
    | Signal                                    // a call past its unlock pokes the dispatcher
    | DispatcherMoves
    | DispatcherStops
    | CloserMoves

  /** The state after a step, or None where the step cannot be taken. */
  function Do(cfg: Config, s: State, step: Step): Option<State> {
    match step
    case Acquire(batch, events) =>
      if !s.holder.Free? || (if batch then events == [] else |events| != 1) then None
      else Some(s.(holder := Publisher(s.nextCall, batch, events, CheckClosing, false), nextCall := s.nextCall + 1))
    case PublisherMoves => PublisherStep(cfg, s)
    case PublisherStops => PublisherStopStep(s)
    case Signal => if s.owed == 0 then None else Some(s.(owed := s.owed - 1, token := true))
    case DispatcherMoves => DispatcherStep(s)
    case DispatcherStops => DispatcherStopStep(s)
    case CloserMoves => CloserStep(s)
  }

  function Run(cfg: Config, s: State, steps: seq<Step>): Option<State>
    decreases |steps|
  {
    if steps == [] then Some(s)
    else match Do(cfg, s, steps[0])
         case None => None
         case Some(s') => Run(cfg, s', steps[1..])
  }

  // Runs compose.
  lemma {:induction false} RunConcat(cfg: Config, s: State, a: seq<Step>, b: seq<Step>)
    requires Run(cfg, s, a).Some?
    ensures Run(cfg, s, a + b) == Run(cfg, Run(cfg, s, a).value, b)
    decreases |a|
  {
    if a == [] {
      assert a + b == b;
    } else {
      assert (a + b)[0] == a[0] && (a + b)[1..] == a[1..] + b;
      RunConcat(cfg, Do(cfg, s, a[0]).value, a[1..], b);
    }
  }

  /** s' can follow s after some number of steps. */
  ghost predicate Leads(cfg: Config, s: State, s': State) {
    exists steps :: Run(cfg, s, steps) == Some(s')
  }

  ghost predicate Reachable(cfg: Config, s: State) {
    Leads(cfg, Init(), s)
  }

  lemma LeadsSelf(cfg: Config, s: State)
    ensures Leads(cfg, s, s)
  {
    assert Run(cfg, s, []) == Some(s);
  }

  lemma LeadsVia(cfg: Config, s: State, t: State, step: Step)
    requires Leads(cfg, s, t) && Do(cfg, t, step).Some?
    ensures Leads(cfg, s, Do(cfg, t, step).value)
  {
    var steps :| Run(cfg, s, steps) == Some(t);
    RunConcat(cfg, s, steps, [step]);
    assert Run(cfg, t, [step]) == Run(cfg, Do(cfg, t, step).value, [step][1..]);
    assert Run(cfg, s, steps + [step]) == Some(Do(cfg, t, step).value);
  }

  lemma LeadsOn(cfg: Config, s: State, t: State, u: State)
    requires Leads(cfg, s, t) && Leads(cfg, t, u)
    ensures Leads(cfg, s, u)
  {
    var a :| Run(cfg, s, a) == Some(t);
    var b :| Run(cfg, t, b) == Some(u);
    RunConcat(cfg, s, a, b);
    assert Run(cfg, s, a + b) == Some(u);
  }

  // A pass that holds none of the batch's events goes by without touching the queues.
  lemma SkipEvents(cfg: Config, s: State, t: State, i: nat) returns (u: State)
    requires Leads(cfg, s, t) && t.holder.Publisher? && t.holder.pc == Pass(i, 0)
    requires forall n :: 0 <= n < |t.holder.events| ==> Level(t.holder.events[n]) != i
    ensures Leads(cfg, s, u) && u == t.(holder := t.holder.(pc := Raise(i + 1)))
  {
    u := t;
    for n := 0 to |t.holder.events|
      invariant Leads(cfg, s, u) && u == t.(holder := t.holder.(pc := Pass(i, n)))
    {
      LeadsVia(cfg, s, u, PublisherMoves);
      u := PublisherStep(cfg, u).value;
    }
    LeadsVia(cfg, s, u, PublisherMoves);
    u := PublisherStep(cfg, u).value;
  }

  // The same, from the raise of the pass's ceiling on.
  lemma SkipPass(cfg: Config, s: State, t: State, i: nat) returns (u: State)
    requires Leads(cfg, s, t) && t.holder.Publisher? && t.holder.pc == Raise(i) && 0 < i < LEVELS
    requires forall n :: 0 <= n < |t.holder.events| ==> Level(t.holder.events[n]) != i
    ensures Leads(cfg, s, u) && u == t.(ceiling := i + 1, holder := t.holder.(pc := Raise(i + 1)))
  {
    LeadsVia(cfg, s, t, PublisherMoves);
    u := SkipEvents(cfg, s, PublisherStep(cfg, t).value, i);
  }

  lemma Advances(cfg: Config, s: State, step: Step) returns (s': State)
    requires Reachable(cfg, s) && Do(cfg, s, step).Some?
    ensures Reachable(cfg, s') && Do(cfg, s, step) == Some(s')
  {
    s' := Do(cfg, s, step).value;
    LeadsVia(cfg, Init(), s, step);
  }
}
