/**
 Close comes to its end: once it has begun, finitely many steps of the closer, the dispatcher and the call that
 holds the publish mutex, if any, complete it. No new call and no signal is needed.
*/
module EventBusClose {
  import opened Options
  import opened EventBusModel
  import opened EventBusInvariants
  import opened EventBusWakeup

  // ---------- runs of the parties concerned ----------

  /** Steps that neither start a call nor signal. */
  predicate Concerned(step: Step) { !step.Acquire? && !step.Signal? }

  ghost predicate Proceeds(cfg: Config, s: State, t: State) {
    exists steps :: (forall i :: 0 <= i < |steps| ==> Concerned(steps[i])) && Run(cfg, s, steps) == Some(t)
  }

  lemma ProceedsSelf(cfg: Config, s: State)
    ensures Proceeds(cfg, s, s)
  {
    assert Run(cfg, s, []) == Some(s);
  }

  lemma ProceedsFirst(cfg: Config, s: State, step: Step, t: State)
    requires Concerned(step) && Do(cfg, s, step).Some? && Proceeds(cfg, Do(cfg, s, step).value, t)
    ensures Proceeds(cfg, s, t)
  {
    var s' := Do(cfg, s, step).value;
    var steps :| (forall i :: 0 <= i < |steps| ==> Concerned(steps[i])) && Run(cfg, s', steps) == Some(t);
    var all := [step] + steps;
    assert all[1..] == steps;
    assert Run(cfg, s, all) == Some(t);
  }

  lemma ProceedsOn(cfg: Config, s: State, t: State, u: State)
    requires Proceeds(cfg, s, t) && Proceeds(cfg, t, u)
    ensures Proceeds(cfg, s, u)
  {
    var a :| (forall i :: 0 <= i < |a| ==> Concerned(a[i])) && Run(cfg, s, a) == Some(t);
    var b :| (forall i :: 0 <= i < |b| ==> Concerned(b[i])) && Run(cfg, t, b) == Some(u);
    RunConcat(cfg, s, a, b);
    assert Run(cfg, s, a + b) == Some(u);
  }

  // ---------- the call in progress leaves ----------

  /** The passes still to come. */
  function PassesLeft(pc: PubPc): nat {
    match pc
    case CheckClosing => 20
    case Raise(i) => if i <= LEVELS then 2 * (LEVELS - i) + 2 else 2
    case Pass(i, _) => if i <= LEVELS then 2 * (LEVELS - i) + 1 else 1
    case Enqueue(i, _, _, _) => if i <= LEVELS then 2 * (LEVELS - i) + 1 else 1
    case Unlock => 0
  }

  /** The events still to come in the pass. */
  function EventsLeft(h: Holder): nat
    requires h.Publisher?
  {
    match h.pc
    case Pass(_, n) => if n <= |h.events| then 2 * (|h.events| - n) + 1 else 0
    case Enqueue(_, n, _, _) => if n <= |h.events| then 2 * (|h.events| - n) else 0
    case _ => 0
  }

  function PhaseLeft(pc: PubPc): nat {
    if !pc.Enqueue? then 0 else match pc.phase case Try => 3 case Poke => 2 case _ => 1
  }

  /** How the call goes on: a send or an eviction that could wait takes its stop branch. */
  function Leaving(h: Holder): Step
    requires h.Publisher?
  {
    if h.pc.Enqueue? && (h.pc.phase.BlockedSend? || h.pc.phase.EvictSelect?) then PublisherStops else PublisherMoves
  }

  lemma EnqueueLeaves(cfg: Config, s: State)
    requires Shape(cfg, s) && s.Stopped() && s.holder.Publisher? && s.holder.pc.Enqueue?
    ensures Do(cfg, s, Leaving(s.holder)).Some?
    ensures var s' := Do(cfg, s, Leaving(s.holder)).value; var h, h' := s.holder, s'.holder;
            && s'.closer == s.closer && s'.disp == s.disp && h'.Publisher? && h'.events == h.events
            && ((h'.pc.Enqueue? && h'.pc.i == h.pc.i && h'.pc.n == h.pc.n && PhaseLeft(h'.pc) < PhaseLeft(h.pc))
                || h'.pc == AfterEvent(h))
  {
  }

  lemma AdvanceLeaves(cfg: Config, s: State)
    requires Shape(cfg, s) && s.Stopped() && s.holder.Publisher? && !s.holder.pc.Enqueue?
    ensures Do(cfg, s, PublisherMoves).Some?
    ensures var s' := Do(cfg, s, PublisherMoves).value; var h, h' := s.holder, s'.holder;
            && s'.closer == s.closer && s'.disp == s.disp
            && (h'.Free?
                || (h'.Publisher? && h'.events == h.events
                    && (PassesLeft(h'.pc) < PassesLeft(h.pc)
                        || (PassesLeft(h'.pc) == PassesLeft(h.pc) && EventsLeft(h') < EventsLeft(h)))))
  {
  }

  /** After stop the call that holds the mutex gives it up. */
  lemma {:induction false} CallLeaves(cfg: Config, s: State) returns (t: State)
    requires Shape(cfg, s) && s.Stopped() && s.holder.Publisher?
    ensures Proceeds(cfg, s, t) && Shape(cfg, t) && t.holder.Free? && t.closer == s.closer
    decreases PassesLeft(s.holder.pc), EventsLeft(s.holder), PhaseLeft(s.holder.pc)
  {
    var step := Leaving(s.holder);
    if s.holder.pc.Enqueue? {
      EnqueueLeaves(cfg, s);
    } else {
      AdvanceLeaves(cfg, s);
    }
    var s' := Do(cfg, s, step).value;
    ShapeStep(cfg, s, step);
    if s'.holder.Free? {
      t := s';
      ProceedsSelf(cfg, s');
    } else {
      t := CallLeaves(cfg, s');
    }
    ProceedsFirst(cfg, s, step, t);
  }

  // ---------- the dispatcher exits ----------

  function DispatcherLeft(d: DispPc): nat {
    match d
    case LoadCeiling => 40
    case Scan(_, k) => if k <= LEVELS then 30 - k else 20
    case Park => 18
    case CheckStop => 18
    case Drain(k, drained) => (if k <= LEVELS then LEVELS - k else 0) + (if drained then 8 else 1)
    case Exited => 0
  }

  function Exiting(d: DispPc): Step { if d.Park? then DispatcherStops else DispatcherMoves }

  lemma DispatcherNears(cfg: Config, s: State)
    requires Shape(cfg, s) && s.Stopped() && !s.disp.Exited?
    ensures Do(cfg, s, Exiting(s.disp)).Some?
    ensures var s' := Do(cfg, s, Exiting(s.disp)).value;
            && Lengths(s') && s'.closer == s.closer
            && (Queued(s') < Queued(s) || (Queued(s') == Queued(s) && DispatcherLeft(s'.disp) < DispatcherLeft(s.disp)))
  {
  }

  /** After stop the dispatcher drains the queues and exits. */
  lemma {:induction false} DispatcherExits(cfg: Config, s: State) returns (t: State)
    requires Shape(cfg, s) && s.Stopped()
    ensures Proceeds(cfg, s, t) && Shape(cfg, t) && t.disp.Exited? && t.closer == s.closer
    decreases Queued(s), DispatcherLeft(s.disp)
  {
    if s.disp.Exited? {
      t := s;
      ProceedsSelf(cfg, s);
    } else {
      var step := Exiting(s.disp);
      DispatcherNears(cfg, s);
      ShapeStep(cfg, s, step);
      t := DispatcherExits(cfg, Do(cfg, s, step).value);
      ProceedsFirst(cfg, s, step, t);
    }
  }

  // ---------- the closer finishes ----------

  function CloserLeft(c: CloserPc): nat {
    if c.FinalDrain? then (if c.k <= LEVELS then LEVELS - c.k else 0) + (if c.drained then 8 else 1) else 0
  }

  lemma DrainNears(cfg: Config, s: State)
    requires Shape(cfg, s) && s.closer.FinalDrain?
    ensures Do(cfg, s, CloserMoves).Some?
    ensures var s' := Do(cfg, s, CloserMoves).value;
            && Lengths(s')
            && (s'.closer.Closed?
                || (s'.closer.FinalDrain?
                    && (Queued(s') < Queued(s)
                        || (Queued(s') == Queued(s) && CloserLeft(s'.closer) < CloserLeft(s.closer)))))
  {
  }

  /** The closer's own drain comes to its end. */
  lemma {:induction false} FinalDrainEnds(cfg: Config, s: State) returns (t: State)
    requires Shape(cfg, s) && s.closer.FinalDrain?
    ensures Proceeds(cfg, s, t) && t.closer.Closed?
    decreases Queued(s), CloserLeft(s.closer)
  {
    DrainNears(cfg, s);
    ShapeStep(cfg, s, CloserMoves);
    var s' := Do(cfg, s, CloserMoves).value;
    if s'.closer.Closed? {
      t := s';
      ProceedsSelf(cfg, s');
    } else {
      t := FinalDrainEnds(cfg, s');
    }
    ProceedsFirst(cfg, s, CloserMoves, t);
  }

  // One step of the closer that is not part of its drain.
  lemma CloserGoesOn(cfg: Config, s: State) returns (t: State)
    requires Shape(cfg, s) && (s.closer.CloseStop? || (s.closer.AwaitGate? && s.holder.Free?) || s.closer.HoldGate?
                               || (s.closer.AwaitWorker? && s.disp.Exited?))
    ensures Proceeds(cfg, s, t) && Shape(cfg, t) && CloserStep(s) == Some(t)
  {
    t := CloserStep(s).value;
    ShapeStep(cfg, s, CloserMoves);
    ProceedsSelf(cfg, t);
    ProceedsFirst(cfg, s, CloserMoves, t);
  }

  // From the wait for the dispatcher on.
  lemma WorkerDone(cfg: Config, s: State) returns (t: State)
    requires Shape(cfg, s) && s.closer.AwaitWorker?
    ensures Proceeds(cfg, s, t) && t.closer.Closed?
  {
    var a := DispatcherExits(cfg, s);
    var b := CloserGoesOn(cfg, a);
    t := FinalDrainEnds(cfg, b);
    ProceedsOn(cfg, s, a, b);
    ProceedsOn(cfg, s, b, t);
  }

  // From the wait for the publish mutex on.
  lemma GateDone(cfg: Config, s: State) returns (t: State)
    requires Shape(cfg, s) && s.closer.AwaitGate?
    ensures Proceeds(cfg, s, t) && t.closer.Closed?
  {
    var a := s;
    ProceedsSelf(cfg, s);
    if s.holder.Publisher? {
      a := CallLeaves(cfg, s);
    }
    var b := CloserGoesOn(cfg, a);
    var c := CloserGoesOn(cfg, b);
    t := WorkerDone(cfg, c);
    ProceedsOn(cfg, s, a, b);
    ProceedsOn(cfg, s, b, c);
    ProceedsOn(cfg, s, c, t);
  }

  /** From every reachable state in which Close has begun, steps of the parties concerned alone complete it. */
  lemma CloseCompletes(cfg: Config, s: State) returns (t: State)
    requires Reachable(cfg, s) && s.Closing()
    ensures Proceeds(cfg, s, t) && t.closer.Closed?
  {
    ReachableInv(cfg, s);
    if s.closer.Closed? {
      t := s;
      ProceedsSelf(cfg, s);
    } else if s.closer.FinalDrain? {
      t := FinalDrainEnds(cfg, s);
    } else if s.closer.AwaitWorker? {
      t := WorkerDone(cfg, s);
    } else if s.closer.AwaitGate? {
      t := GateDone(cfg, s);
    } else {
      var a := CloserGoesOn(cfg, s);
      if s.closer.CloseStop? {
        t := GateDone(cfg, a);
      } else {
        t := WorkerDone(cfg, a);
      }
      ProceedsOn(cfg, s, a, t);
    }
  }
}
