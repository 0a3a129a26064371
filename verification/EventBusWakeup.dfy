/**
 Wake-ups and backpressure.

 No wake-up is lost under Block and DropOldest; under DropLatest one can be, because a batch that
 drops every event raises the ceiling but does not signal. A publisher blocked on a full queue is
 always let through by the dispatcher's own steps.
*/
module EventBusWakeup {
  import opened Options
  import opened EventBusModel
  import opened EventBusInvariants

  // ---------- lost wake-ups ----------

  /** A batch between its first raise and its unlock. */
  predicate InFlight(h: Holder) {
    h.Publisher? && h.batch && !h.pc.CheckClosing? && h.pc != Raise(0)
  }

  /** A signal is in the slot, or someone will still put one there. */
  predicate Pending(s: State) {
    s.token || s.owed > 0 || (s.holder.Publisher? && s.holder.wrote) || InFlight(s.holder)
  }

  /** The dispatcher will not look at queue l again before it waits for a signal. */
  predicate Overlooked(d: DispPc, l: nat) {
    d.Park? || (d.Scan? && (l < d.k || l >= d.limit))
  }

  ghost predicate Wakeable(s: State)
    requires Lengths(s)
  {
    !s.Stopped() && !s.silent ==>
      forall l :: 0 <= l < LEVELS && Overlooked(s.disp, l) && s.queues[l] != [] ==> Pending(s)
  }

  /** A parked dispatcher with an empty slot, and nobody left to signal, means that there is nothing to do. */
  ghost predicate NoLostWakeup(s: State) {
    !s.Stopped() && s.disp.Park? && !s.token && s.owed == 0 && s.holder.Free? ==>
      forall l :: 0 <= l < |s.queues| ==> s.queues[l] == []
  }

  lemma WakeableDispatcher(cfg: Config, s: State)
    requires Shape(cfg, s) && Wakeable(s) && DispatcherStep(s).Some?
    ensures Lengths(DispatcherStep(s).value) && Wakeable(DispatcherStep(s).value)
  {
    var s' := DispatcherStep(s).value;
    DispatcherFrame(s);
    DispatcherEffect(s);
    if s'.disp.Scan? || s'.disp.Park? {
      assert SameData(s, s') && s'.token == s.token;
      assert s.disp.LoadCeiling? && s'.disp.limit < LEVELS ==> InFlight(s.holder);
      assert s.disp.Scan? ==> s.queues[s.disp.k] == [];
      assert forall l :: 0 <= l < LEVELS && Overlooked(s'.disp, l) ==>
        Overlooked(s.disp, l) || s.queues[l] == [] || Pending(s);
    }
  }

  lemma WakeablePublisher(cfg: Config, s: State)
    requires Shape(cfg, s) && Wakeable(s) && PublisherStep(cfg, s).Some?
    ensures Lengths(PublisherStep(cfg, s).value) && Wakeable(PublisherStep(cfg, s).value)
  {
    var s' := PublisherStep(cfg, s).value;
    if s.holder.pc.Enqueue? {
      EnqueueEffect(cfg, s);
      if s' == Accept(s) {
        assert Pending(s');
      } else {
        assert Pending(s) ==> Pending(s');
        assert forall l :: 0 <= l < LEVELS && s.queues[l] == [] ==> s'.queues[l] == [];
      }
    } else {
      assert s'.silent || (Pending(s) ==> Pending(s'));
    }
  }

  lemma WakeableCloser(cfg: Config, s: State)
    requires Shape(cfg, s) && Wakeable(s) && CloserStep(s).Some?
    ensures Lengths(CloserStep(s).value) && Wakeable(CloserStep(s).value)
  {
    CloserFrame(s);
    CloserEffect(s);
  }

  lemma WakeableStep(cfg: Config, s: State, step: Step)
    requires Shape(cfg, s) && Wakeable(s) && Do(cfg, s, step).Some?
    ensures Lengths(Do(cfg, s, step).value) && Wakeable(Do(cfg, s, step).value)
  {
    match step
    case PublisherMoves => WakeablePublisher(cfg, s);
    case DispatcherMoves => WakeableDispatcher(cfg, s);
    case CloserMoves => WakeableCloser(cfg, s);
    case PublisherStops =>
    case Signal =>
    case DispatcherStops =>
    case Acquire(_, _) =>
  }

  // ---------- Block and DropOldest always write ----------

  /** Until the call has written something it is not past any of its events. */
  ghost predicate Diligent(s: State) {
    !s.Stopped() ==>
      && !s.silent
      && (s.holder.Publisher? && !s.holder.wrote ==>
            forall p :: 0 <= p < |s.holder.events| ==> !Passed(s.holder, Level(s.holder.events[p]), p))
  }

  lemma DiligentPublisher(cfg: Config, s: State)
    requires Shape(cfg, s) && !cfg.strategy.DropLatest? && Diligent(s) && PublisherStep(cfg, s).Some?
    ensures Diligent(PublisherStep(cfg, s).value)
  {
    var s' := PublisherStep(cfg, s).value;
    if s.holder.pc.Enqueue? {
      EnqueueEffect(cfg, s);
      assert s' != GiveUp(s);
    } else if s'.holder.Publisher? {
      forall p | 0 <= p < |s.holder.events|
        ensures Passed(s'.holder, Level(s.holder.events[p]), p) ==> Passed(s.holder, Level(s.holder.events[p]), p)
      {
        AdvancePassed(cfg, s.holder, s.Closing(), Level(s.holder.events[p]), p);
      }
    } else if s.holder.pc.Unlock? {
      assert Passed(s.holder, Level(s.holder.events[0]), 0);
    }
  }

  lemma DiligentStep(cfg: Config, s: State, step: Step)
    requires Shape(cfg, s) && !cfg.strategy.DropLatest? && Diligent(s) && Do(cfg, s, step).Some?
    ensures Diligent(Do(cfg, s, step).value)
  {
    match step
    case PublisherMoves => DiligentPublisher(cfg, s);
    case DispatcherMoves => DispatcherFrame(s);
    case CloserMoves => CloserFrame(s);
    case PublisherStops =>
    case Signal =>
    case DispatcherStops =>
    case Acquire(_, _) =>
  }

  // ---------- blocked publishers ----------

  /** The lock holder waits for space in a full queue. */
  predicate Stuck(cfg: Config, s: State)
    requires Lengths(s)
  {
    && Ready(s) && s.holder.pc.phase.BlockedSend?
    && |s.queues[s.holder.pc.i]| >= cfg.Capacity()
  }

  /** The dispatcher is on its way to a scan that reaches queue i. */
  predicate Heading(d: DispPc, i: nat) {
    d.CheckStop? || d.LoadCeiling? || (d.Scan? && d.k <= i < d.limit)
  }

  predicate Unblockable(cfg: Config, s: State)
    requires Lengths(s)
  {
    !s.Stopped() && Stuck(cfg, s) ==> s.token || Heading(s.disp, s.holder.pc.i)
  }

  lemma UnblockableDispatcher(cfg: Config, s: State)
    requires Shape(cfg, s) && Unblockable(cfg, s) && DispatcherStep(s).Some?
    ensures Lengths(DispatcherStep(s).value) && Unblockable(cfg, DispatcherStep(s).value)
  {
    DispatcherFrame(s);
    DispatcherEffect(s);
  }

  lemma UnblockablePublisher(cfg: Config, s: State)
    requires Shape(cfg, s) && Unblockable(cfg, s) && PublisherStep(cfg, s).Some?
    ensures Lengths(PublisherStep(cfg, s).value) && Unblockable(cfg, PublisherStep(cfg, s).value)
  {
    if s.holder.pc.Enqueue? {
      EnqueueEffect(cfg, s);
    }
  }

  lemma UnblockableStep(cfg: Config, s: State, step: Step)
    requires Shape(cfg, s) && Unblockable(cfg, s) && Do(cfg, s, step).Some?
    ensures Lengths(Do(cfg, s, step).value) && Unblockable(cfg, Do(cfg, s, step).value)
  {
    match step
    case PublisherMoves => UnblockablePublisher(cfg, s);
    case DispatcherMoves => UnblockableDispatcher(cfg, s);
    case CloserMoves => CloserFrame(s); CloserEffect(s);
    case PublisherStops =>
    case Signal =>
    case DispatcherStops =>
    case Acquire(_, _) =>
  }

  // ---------- all reachable states ----------

  ghost predicate Live(cfg: Config, s: State) {
    && Shape(cfg, s) && Wakeable(s) && Unblockable(cfg, s)
    && (!cfg.strategy.DropLatest? ==> Diligent(s))
  }

  lemma {:induction false} LiveRun(cfg: Config, s: State, steps: seq<Step>)
    requires Live(cfg, s) && Run(cfg, s, steps).Some?
    ensures Live(cfg, Run(cfg, s, steps).value)
    decreases |steps|
  {
    if steps != [] {
      ShapeStep(cfg, s, steps[0]);
      WakeableStep(cfg, s, steps[0]);
      UnblockableStep(cfg, s, steps[0]);
      if !cfg.strategy.DropLatest? {
        DiligentStep(cfg, s, steps[0]);
      }
      LiveRun(cfg, Do(cfg, s, steps[0]).value, steps[1..]);
    }
  }

  lemma ReachableLive(cfg: Config, s: State)
    requires Reachable(cfg, s)
    ensures Live(cfg, s)
  {
    var steps :| Run(cfg, Init(), steps) == Some(s);
    LiveRun(cfg, Init(), steps);
  }

  /** Whatever the strategy, wake-ups get lost only after some batch wrote nothing. */
  lemma NoWakeupLostUnlessSilent(cfg: Config, s: State)
    requires Reachable(cfg, s) && !s.silent
    ensures NoLostWakeup(s)
  {
    ReachableLive(cfg, s);
  }

  // ---------- under DropLatest a wake-up can be lost ----------

  const IDLE := Event(1, 1, 0, DEFERRED)

  // n deferred events are queued and signalled; the dispatcher has not moved.
  lemma {:induction false} FillDeferred(cfg: Config, n: nat) returns (s: State)
    requires n <= cfg.Capacity()
    ensures Reachable(cfg, s) && Lengths(s) && |s.queues[4]| == n && (forall l :: 0 <= l < 4 ==> s.queues[l] == [])
    ensures s == Init().(queues := s.queues, accepted := s.accepted, token := n > 0, nextCall := s.nextCall)
  {
    if n == 0 {
      s := Init();
      LeadsSelf(cfg, s);
    } else {
      s := FillDeferred(cfg, n - 1);
      s := Advances(cfg, s, Acquire(false, [IDLE]));
      s := Advances(cfg, s, PublisherMoves);
      var t := Accept(s);
      s := Advances(cfg, s, PublisherMoves);
      assert s == t;
      s := Advances(cfg, s, PublisherMoves);
      s := Advances(cfg, s, Signal);
    }
  }

  // With a batch's first ceiling in force, the dispatcher uses up the token and parks.
  lemma ParkBehindCeiling(cfg: Config, s: State) returns (t: State)
    requires Reachable(cfg, s) && Lengths(s) && s.disp.CheckStop? && !s.Stopped()
    requires s.token && s.ceiling == 1 && s.queues[0] == []
    ensures Reachable(cfg, t) && t == s.(token := false, disp := Park)
  {
    t := Advances(cfg, s, DispatcherMoves);
    t := Advances(cfg, t, DispatcherMoves);
    t := Advances(cfg, t, DispatcherMoves);
    t := Advances(cfg, t, DispatcherMoves);
    assert t == s.(token := false);
    t := Advances(cfg, t, DispatcherMoves);
    t := Advances(cfg, t, DispatcherMoves);
    t := Advances(cfg, t, DispatcherMoves);
  }

  // A batch of one deferred event that finds its queue full finishes without writing.
  lemma FinishSilently(cfg: Config, s: State) returns (t: State)
    requires cfg.strategy.DropLatest? && Reachable(cfg, s) && Lengths(s) && |s.queues[4]| >= cfg.Capacity()
    requires s.holder.Publisher? && s.holder.batch && s.holder.events == [IDLE] && s.holder.pc == Pass(0, 0)
        && !s.holder.wrote
    ensures Reachable(cfg, t) && t.holder.Free?
    ensures t.queues == s.queues && t.token == s.token && t.owed == s.owed && t.disp == s.disp && t.closer == s.closer
  {
    t := SkipEvents(cfg, Init(), s, 0);
    for i := 1 to 4
      invariant Reachable(cfg, t) && t == s.(ceiling := t.ceiling, holder := s.holder.(pc := Raise(i)))
    {
      t := SkipPass(cfg, Init(), t, i);
    }
    t := Advances(cfg, t, PublisherMoves);
    t := Advances(cfg, t, PublisherMoves);
    var u := GiveUp(t);
    t := Advances(cfg, t, PublisherMoves);
    assert t == u;
    t := Advances(cfg, t, PublisherMoves);
    t := Advances(cfg, t, PublisherMoves);
    t := Advances(cfg, t, PublisherMoves);
  }

  lemma DropLatestLosesAWakeup(cfg: Config) returns (s: State)
    requires cfg.strategy.DropLatest?
    ensures Reachable(cfg, s) && !NoLostWakeup(s)
  {
    s := FillDeferred(cfg, cfg.Capacity());
    s := Advances(cfg, s, Acquire(true, [IDLE]));
    s := Advances(cfg, s, PublisherMoves);
    s := Advances(cfg, s, PublisherMoves);
    s := ParkBehindCeiling(cfg, s);
    s := FinishSilently(cfg, s);
    assert s.queues[4] != [];
  }

  /** The wake-up guarantee holds in every reachable state exactly for the strategies that never reject a newcomer. */
  lemma WakeupsLostOnlyUnderDropLatest(cfg: Config)
    ensures (forall s :: Reachable(cfg, s) ==> NoLostWakeup(s)) <==> !cfg.strategy.DropLatest?
  {
    if cfg.strategy.DropLatest? {
      var s := DropLatestLosesAWakeup(cfg);
    } else {
      forall s | Reachable(cfg, s)
        ensures NoLostWakeup(s)
      {
        ReachableLive(cfg, s);
      }
    }
  }

  // ---------- the dispatcher frees blocked publishers ----------

  /** The dispatcher alone makes n moves. */
  function Dispatches(s: State, n: nat): Option<State>
    decreases n
  {
    if n == 0 then Some(s)
    else match DispatcherStep(s)
         case None => None
         case Some(s') => Dispatches(s', n - 1)
  }

  function Queued(s: State): nat
    requires Lengths(s)
  {
    |s.queues[0]| + |s.queues[1]| + |s.queues[2]| + |s.queues[3]| + |s.queues[4]|
  }

  /** How far the dispatcher is from a scan that reaches queue i. */
  function Distance(d: DispPc, i: nat): nat {
    match d
    case Scan(limit, k) => if k <= i < limit then i - k else if k <= LEVELS then 25 - k else 20
    case Park => 15
    case CheckStop => 12
    case LoadCeiling => 11
    case _ => 0
  }

  // A move that serves nothing brings the dispatcher closer to the full queue.
  lemma Approaches(cfg: Config, s: State)
    requires Shape(cfg, s) && Unblockable(cfg, s) && !s.Stopped() && Stuck(cfg, s) && DispatcherStep(s).Some?
    requires |DispatcherStep(s).value.queues| == LEVELS
    ensures var s', i := DispatcherStep(s).value, s.holder.pc.i;
            Queued(s') < Queued(s) || (Queued(s') == Queued(s) && Distance(s'.disp, i) < Distance(s.disp, i))
  {
    DispatcherEffect(s);
  }

  lemma {:induction false} DispatcherMakesRoom(cfg: Config, s: State) returns (n: nat)
    requires Shape(cfg, s) && Unblockable(cfg, s) && !s.Stopped() && Stuck(cfg, s)
    ensures Dispatches(s, n).Some?
    ensures var t := Dispatches(s, n).value;
            Lengths(t) && t.holder == s.holder && |t.queues[s.holder.pc.i]| < cfg.Capacity()
    decreases Queued(s), Distance(s.disp, s.holder.pc.i)
  {
    var i := s.holder.pc.i;
    var s' := DispatcherStep(s).value;
    DispatcherFrame(s);
    DispatcherEffect(s);
    ShapeDispatcher(cfg, s);
    UnblockableDispatcher(cfg, s);
    if |s'.queues[i]| < cfg.Capacity() {
      n := 1;
      assert Dispatches(s', 0) == Some(s');
    } else {
      Approaches(cfg, s);
      n := DispatcherMakesRoom(cfg, s');
      n := n + 1;
    }
  }

  /** From any reachable state, a publisher blocked on a full queue gets its space from dispatcher moves alone. */
  lemma BlockedPublisherIsLetThrough(cfg: Config, s: State) returns (n: nat)
    requires Reachable(cfg, s) && Lengths(s) && !s.Stopped() && Stuck(cfg, s)
    ensures Dispatches(s, n).Some? && PublisherStep(cfg, Dispatches(s, n).value).Some?
  {
    ReachableLive(cfg, s);
    n := DispatcherMakesRoom(cfg, s);
  }
}
