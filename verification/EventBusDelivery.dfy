/**
 Delivery and shutdown: evictions are followed by acceptance, Block sheds nothing while the bus
 runs, and after Close the queues are empty for good and every accepted event is accounted for.
*/
module EventBusDelivery {
  import opened Options
  import opened EventBusModel
  import opened EventBusInvariants

  // ---------- evictions and shedding ----------

  /** An enqueue that has evicted is back at its send, with room to spare. */
  predicate EvictedHasRoom(cfg: Config, s: State)
    requires Lengths(s)
  {
    s.holder.Publisher? && s.holder.pc.Enqueue? && s.holder.pc.i < LEVELS && s.holder.pc.evicted ==>
      s.holder.pc.phase.Try? && |s.queues[s.holder.pc.i]| < cfg.Capacity()
  }

  ghost predicate KeepsEvents(cfg: Config, s: State)
    requires Lengths(s)
  {
    && (!cfg.strategy.DropOldest? ==> forall l, i :: 0 <= l < LEVELS && 0 <= i < |s.removed[l]| ==>
        !s.removed[l][i].evicted)
    && (!cfg.strategy.DropLatest? && !s.Stopped() ==> s.shed == [])
  }

  // ---------- the final drain ----------

  /** What a round of the closer's drain has passed without finding anything is empty. */
  ghost predicate Drained(s: State)
    requires Lengths(s)
  {
    && (s.closer.FinalDrain? && !s.closer.drained ==> forall l :: 0 <= l < s.closer.k && l < LEVELS ==>
        s.queues[l] == [])
    && (s.closer.Closed? ==> forall l :: 0 <= l < LEVELS ==> s.queues[l] == [])
  }

  ghost predicate Delivery(cfg: Config, s: State) {
    Shape(cfg, s) && EvictedHasRoom(cfg, s) && KeepsEvents(cfg, s) && Drained(s)
  }

  lemma DeliveryEnqueue(cfg: Config, s: State)
    requires Delivery(cfg, s) && EnqueueStep(cfg, s).Some?
    ensures var s' := EnqueueStep(cfg, s).value;
            Lengths(s') && EvictedHasRoom(cfg, s') && KeepsEvents(cfg, s')
  {
    var s' := EnqueueStep(cfg, s).value;
    EnqueueEffect(cfg, s);
    if s' == GiveUp(s) {
      assert cfg.strategy.DropLatest?;
    } else if s.queues[s.holder.pc.i] != [] && s' == Evict(s) {
      assert cfg.strategy.DropOldest?;
    }
  }

  lemma DeliveryPublisher(cfg: Config, s: State)
    requires Delivery(cfg, s) && PublisherStep(cfg, s).Some?
    ensures Delivery(cfg, PublisherStep(cfg, s).value)
  {
    ShapePublisher(cfg, s);
    if s.holder.pc.Enqueue? {
      EnqueueFrame(cfg, s);
      DeliveryEnqueue(cfg, s);
    }
  }

  lemma DeliveryDispatcher(cfg: Config, s: State)
    requires Delivery(cfg, s) && DispatcherStep(s).Some?
    ensures Delivery(cfg, DispatcherStep(s).value)
  {
    ShapeDispatcher(cfg, s);
    DispatcherFrame(s);
    DispatcherEffect(s);
  }

  lemma DeliveryCloser(cfg: Config, s: State)
    requires Delivery(cfg, s) && CloserStep(s).Some?
    ensures Delivery(cfg, CloserStep(s).value)
  {
    var s' := CloserStep(s).value;
    ShapeCloser(cfg, s);
    CloserFrame(s);
    CloserEffect(s);
    assert EvictedHasRoom(cfg, s');
    assert KeepsEvents(cfg, s');
  }

  lemma DeliveryStep(cfg: Config, s: State, step: Step)
    requires Delivery(cfg, s) && Do(cfg, s, step).Some?
    ensures Delivery(cfg, Do(cfg, s, step).value)
  {
    ShapeStep(cfg, s, step);
    match step
    case PublisherMoves => DeliveryPublisher(cfg, s);
    case DispatcherMoves => DeliveryDispatcher(cfg, s);
    case CloserMoves => DeliveryCloser(cfg, s);
    case PublisherStops =>
    case Signal =>
    case DispatcherStops =>
    case Acquire(_, _) =>
  }

  lemma {:induction false} DeliveryRun(cfg: Config, s: State, steps: seq<Step>)
    requires Inv(cfg, s) && Delivery(cfg, s) && Run(cfg, s, steps).Some?
    ensures Inv(cfg, Run(cfg, s, steps).value) && Delivery(cfg, Run(cfg, s, steps).value)
    decreases |steps|
  {
    if steps != [] {
      InvStep(cfg, s, steps[0]);
      DeliveryStep(cfg, s, steps[0]);
      DeliveryRun(cfg, Do(cfg, s, steps[0]).value, steps[1..]);
    }
  }

  lemma ReachableDelivery(cfg: Config, s: State)
    requires Reachable(cfg, s)
    ensures Inv(cfg, s) && Delivery(cfg, s)
  {
    var steps :| Run(cfg, Init(), steps) == Some(s);
    InitInv(cfg);
    DeliveryRun(cfg, Init(), steps);
  }

  // ---------- results ----------

  /**
   In every reachable state and for every level, what was accepted is what was removed followed by
   what is queued, the handlers saw exactly the removals that were not evictions, in order, and no
   event was accepted twice.
  */
  lemma EventsConserved(cfg: Config, s: State, l: nat)
    requires Reachable(cfg, s) && l < LEVELS
    ensures Lengths(s)
    ensures s.accepted[l] == Entries(s.removed[l]) + s.queues[l]
    ensures OfLevel(s.log, l) == Delivered(s.removed[l])
    ensures forall i, j :: 0 <= i < j < |s.accepted[l]| ==> s.accepted[l][i] != s.accepted[l][j]
  {
    ReachableDelivery(cfg, s);
    assert ConservedAt(s, l);
    assert forall i, j :: 0 <= i < j < |s.accepted[l]| ==> Earlier(s.accepted[l][i], s.accepted[l][j]);
  }

  /** An enqueue that has evicted an event writes its own event in its very next action, so it evicts at most once. */
  lemma EvictionIsFollowedByAcceptance(cfg: Config, s: State)
    requires Reachable(cfg, s) && Ready(s) && s.holder.pc.evicted
    ensures PublisherStep(cfg, s) == Some(Accept(s)) && PublisherStopStep(s).None?
  {
    ReachableDelivery(cfg, s);
  }

  lemma {:induction false} NothingEvicted(rs: seq<Removal>)
    requires forall i :: 0 <= i < |rs| ==> !rs[i].evicted
    ensures Delivered(rs) == Entries(rs)
    decreases |rs|
  {
    if rs != [] {
      var n := |rs| - 1;
      NothingEvicted(rs[..n]);
      assert Entries(rs) == Entries(rs[..n]) + [rs[n].entry];
    }
  }

  /**
   Under Block a running bus loses nothing: every accepted event was handed to the handlers or is queued, in order,
   and none was given up on.
  */
  lemma BlockDeliversEverything(cfg: Config, s: State, l: nat)
    requires Reachable(cfg, s) && cfg.strategy.Block? && l < LEVELS
    ensures Lengths(s) && s.accepted[l] == OfLevel(s.log, l) + s.queues[l]
    ensures !s.Stopped() ==> s.shed == []
  {
    ReachableDelivery(cfg, s);
    assert ConservedAt(s, l);
    NothingEvicted(s.removed[l]);
  }

  /** When Close returns, every accepted event was handed to the handlers or evicted, and the queues are empty. */
  lemma CloseLeavesNothingQueued(cfg: Config, s: State, l: nat)
    requires Reachable(cfg, s) && s.closer.Closed? && l < LEVELS
    ensures Lengths(s) && s.queues[l] == [] && s.accepted[l] == Entries(s.removed[l])
    ensures OfLevel(s.log, l) == Delivered(s.removed[l])
  {
    ReachableDelivery(cfg, s);
    assert ConservedAt(s, l);
  }

  /** Once Close has held the publish mutex nothing is accepted any more. */
  lemma {:induction false} NothingAcceptedPastGate(cfg: Config, s: State, steps: seq<Step>)
    requires Shape(cfg, s) && PastGate(s.closer) && Run(cfg, s, steps).Some?
    ensures Run(cfg, s, steps).value.accepted == s.accepted && PastGate(Run(cfg, s, steps).value.closer)
    decreases |steps|
  {
    if steps != [] {
      var s' := Do(cfg, s, steps[0]).value;
      ShapeStep(cfg, s, steps[0]);
      if steps[0].DispatcherMoves? {
        DispatcherFrame(s);
      } else if steps[0].CloserMoves? {
        CloserFrame(s);
      }
      assert s'.accepted == s.accepted && PastGate(s'.closer);
      NothingAcceptedPastGate(cfg, s', steps[1..]);
    }
  }

  lemma {:induction false} ClosedStays(cfg: Config, s: State, steps: seq<Step>)
    requires Shape(cfg, s) && s.closer.Closed? && Run(cfg, s, steps).Some?
    ensures Run(cfg, s, steps).value.closer.Closed? && Run(cfg, s, steps).value.log == s.log
    decreases |steps|
  {
    if steps != [] {
      var s' := Do(cfg, s, steps[0]).value;
      ShapeStep(cfg, s, steps[0]);
      assert s'.closer.Closed? && s'.log == s.log;
      ClosedStays(cfg, s', steps[1..]);
    }
  }

  /** After Close has returned no event is ever accepted, and none is handed out. */
  lemma ClosedForGood(cfg: Config, s: State, t: State)
    requires Reachable(cfg, s) && s.closer.Closed? && Leads(cfg, s, t)
    ensures t.closer.Closed? && t.accepted == s.accepted && t.log == s.log
  {
    var steps :| Run(cfg, s, steps) == Some(t);
    ReachableDelivery(cfg, s);
    NothingAcceptedPastGate(cfg, s, steps);
    ClosedStays(cfg, s, steps);
  }
}
