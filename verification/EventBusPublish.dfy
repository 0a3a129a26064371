/**
 What publishing means in the caller's terms: which priority is served before which, what becomes of an event when
 its queue has room and when it is full, and that a finished call has dealt with every one of its events.
*/
module EventBusPublish {
  import opened Options
  import opened EventBusModel
  import opened EventBusInvariants
  import opened EventBusOrder
  import opened EventBusDelivery

  // ---------- priorities ----------

  /** Critical is 2, High 1, Normal 0 or unknown, Low 3 and Deferred 4; they are served in this order. */
  lemma LevelOfPriority(e: Event)
    ensures Level(e) == 0 <==> e.priority == 2
    ensures Level(e) == 1 <==> e.priority == 1
    ensures Level(e) == 2 <==> e.priority == 0 || e.priority >= 5
    ensures Level(e) == 3 <==> e.priority == 3
    ensures Level(e) == 4 <==> e.priority == 4
  {
  }

  lemma DrainOrder()
    ensures PRIORITY_ORDER == [2, 1, 0, 3, 4]
  {
  }

  /**
   Of a calm batch the handlers see Critical (2) before High (1) before Normal (0, or 5 and above) before Low (3)
   before Deferred (4), and events of one priority in the caller's order.
  */
  lemma CalmBatchByPriority(cfg: Config, s: State, b: nat, i: nat, j: nat)
    requires Reachable(cfg, s) && !s.Draining()
    requires b in s.calm && i < j < |s.log| && s.log[i].call == b && s.log[j].call == b
    ensures var p, q := s.log[i].event.priority, s.log[j].event.priority;
            && (q == 2 ==> p == 2)
            && (q == 1 ==> p == 2 || p == 1)
            && (q == 0 || q >= 5 ==> p != 3 && p != 4)
            && (q == 3 ==> p != 4)
            && (p == q ==> s.log[i].pos < s.log[j].pos)
  {
    CalmBatchDeliveredInOrder(cfg, s, b, i, j);
    LevelOfPriority(s.log[i].event);
    LevelOfPriority(s.log[j].event);
  }

  // ---------- capacity ----------

  /** A queue holds as many events as configured, and 256 if the size given is not positive. */
  lemma CapacityAsConfigured(strategy: Strategy, n: int)
    ensures Config(strategy, n).Capacity() == if n > 0 then n else 256
  {
  }

  // ---------- a single event ----------

  /** The call has the mutex and stands before the send of its event. */
  lemma AtSend(cfg: Config, s: State, e: Event) returns (t: State)
    requires Lengths(s) && s.holder.Free? && !s.Closing()
    ensures Leads(cfg, s, t)
    ensures t == s.(
        holder := Publisher(s.nextCall, false, [e], Enqueue(Level(e), 0, Try, false), false),
        nextCall := s.nextCall + 1)
  {
    LeadsSelf(cfg, s);
    LeadsVia(cfg, s, s, Acquire(false, [e]));
    t := Do(cfg, s, Acquire(false, [e])).value;
    LeadsVia(cfg, s, t, PublisherMoves);
    t := PublisherStep(cfg, t).value;
  }

  /** A queue with room takes the event at its end; nothing is dropped. */
  lemma PublishWithRoom(cfg: Config, s: State, e: Event) returns (t: State)
    requires Lengths(s) && s.holder.Free? && !s.Closing() && |s.queues[Level(e)]| < cfg.Capacity()
    ensures Leads(cfg, s, t) && Lengths(t) && t.shed == s.shed && t.removed == s.removed
    ensures t.queues == s.queues[Level(e) := s.queues[Level(e)] + [Entry(e, s.nextCall, 0)]]
    ensures t.holder.Publisher? && t.holder.pc.Unlock? && t.holder.wrote
  {
    var u := AtSend(cfg, s, e);
    LeadsVia(cfg, s, u, PublisherMoves);
    t := PublisherStep(cfg, u).value;
  }

  /** DropLatest on a full queue: the newcomer is dropped and the queue stays. */
  lemma PublishDropLatest(cfg: Config, s: State, e: Event) returns (t: State)
    requires Lengths(s) && s.holder.Free? && !s.Closing() && |s.queues[Level(e)]| >= cfg.Capacity()
    requires cfg.strategy.DropLatest?
    ensures Leads(cfg, s, t) && t.queues == s.queues && t.shed == s.shed + [Entry(e, s.nextCall, 0)]
    ensures t.holder.Publisher? && t.holder.pc.Unlock? && !t.holder.wrote
  {
    var u := AtSend(cfg, s, e);
    LeadsVia(cfg, s, u, PublisherMoves);
    t := PublisherStep(cfg, u).value;
  }

  /** DropOldest on a full queue: the head makes way and the newcomer is written. */
  lemma PublishDropOldest(cfg: Config, s: State, e: Event) returns (t: State)
    requires Lengths(s) && s.holder.Free? && !s.Closing() && |s.queues[Level(e)]| == cfg.Capacity()
    requires cfg.strategy.DropOldest?
    ensures Leads(cfg, s, t) && Lengths(t) && t.shed == s.shed
    ensures t.queues == s.queues[Level(e) := s.queues[Level(e)][1..] + [Entry(e, s.nextCall, 0)]]
    ensures t.removed == s.removed[Level(e) := s.removed[Level(e)] + [Removal(s.queues[Level(e)][0], true)]]
    ensures t.holder.Publisher? && t.holder.pc.Unlock? && t.holder.wrote
  {
    var u := AtSend(cfg, s, e);
    LeadsVia(cfg, s, u, PublisherMoves);
    var v := PublisherStep(cfg, u).value;
    assert v == SetPhase(u, EvictSelect);
    LeadsVia(cfg, s, v, PublisherMoves);
    u := PublisherStep(cfg, v).value;
    assert u == Evict(v);
    LeadsVia(cfg, s, u, PublisherMoves);
    t := PublisherStep(cfg, u).value;
    assert t == Accept(u);
  }

  /** Block on a full queue: the dispatcher is woken, and the call waits with the queue untouched. */
  lemma PublishBlock(cfg: Config, s: State, e: Event) returns (t: State)
    requires Lengths(s) && s.holder.Free? && !s.Closing() && |s.queues[Level(e)]| >= cfg.Capacity()
    requires cfg.strategy.Block?
    ensures Leads(cfg, s, t) && t.queues == s.queues && t.shed == s.shed && t.token
    ensures t.holder.Publisher? && t.holder.pc == Enqueue(Level(e), 0, BlockedSend, false)
    ensures PublisherStep(cfg, t).None?
  {
    var u := AtSend(cfg, s, e);
    LeadsVia(cfg, s, u, PublisherMoves);
    u := PublisherStep(cfg, u).value;
    LeadsVia(cfg, s, u, PublisherMoves);
    t := PublisherStep(cfg, u).value;
  }

  // ---------- whole calls ----------

  /** A call about to give the mutex back has had every one of its events accepted or given up on. */
  lemma FinishedCallSettled(cfg: Config, s: State, p: nat)
    requires Reachable(cfg, s) && s.holder.Publisher? && s.holder.pc.Unlock? && p < |s.holder.events|
    ensures Lengths(s)
    ensures var x := Entry(s.holder.events[p], s.holder.call, p); x in s.accepted[Level(x.event)] || x in s.shed
  {
    ReachableInv(cfg, s);
    assert Passed(s.holder, Level(s.holder.events[p]), p);
    assert Settled(s, p);
  }

  /** An idle dispatcher hands out the head of the most urgent queue that is not empty. */
  lemma {:induction false} IdleScanServes(cfg: Config, s0: State, s: State, l: nat) returns (t: State)
    requires Leads(cfg, s0, s) && Lengths(s) && s.disp.Scan? && s.disp.k <= l < s.disp.limit <= LEVELS
    requires s.queues[l] != [] && forall m :: s.disp.k <= m < l ==> s.queues[m] == []
    ensures Leads(cfg, s0, t) && t.log == s.log + [s.queues[l][0]] && t.queues == s.queues[l := s.queues[l][1..]]
    decreases l - s.disp.k
  {
    LeadsVia(cfg, s0, s, DispatcherMoves);
    t := DispatcherStep(s).value;
    if s.disp.k < l {
      t := IdleScanServes(cfg, s0, t, l);
    }
  }

  // ---------- stopping ----------

  /** Since stop was closed, with base events in the log, at most one event was handed out by a scan. */
  ghost predicate Ending(s: State, base: nat) {
    && s.Stopped() && (s.closer.FinalDrain? || s.closer.Closed? ==> s.disp.Exited?)
    && (!s.Draining() ==> |s.log| <= base + if s.disp.Scan? || s.disp.LoadCeiling? then 0 else 1)
  }

  lemma PublishersKeepEnding(cfg: Config, s: State, base: nat, step: Step)
    requires Ending(s, base) && Do(cfg, s, step).Some?
    requires step.Acquire? || step.PublisherMoves? || step.PublisherStops? || step.Signal?
    ensures Ending(Do(cfg, s, step).value, base)
  {
    var t := Do(cfg, s, step).value;
    assert t.disp == s.disp && t.closer == s.closer && t.log == s.log;
  }

  lemma OthersKeepEnding(cfg: Config, s: State, base: nat, step: Step)
    requires Ending(s, base) && Do(cfg, s, step).Some?
    requires step.DispatcherMoves? || step.DispatcherStops? || step.CloserMoves?
    ensures Ending(Do(cfg, s, step).value, base)
  {
  }

  lemma {:induction false} EndingLasts(cfg: Config, s: State, base: nat, steps: seq<Step>)
    requires Ending(s, base) && Run(cfg, s, steps).Some?
    ensures Ending(Run(cfg, s, steps).value, base)
    decreases |steps|
  {
    if steps != [] {
      var step := steps[0];
      if step.DispatcherMoves? || step.DispatcherStops? || step.CloserMoves? {
        OthersKeepEnding(cfg, s, base, step);
      } else {
        PublishersKeepEnding(cfg, s, base, step);
      }
      EndingLasts(cfg, Do(cfg, s, step).value, base, steps[1..]);
    }
  }

  /** Once stop is closed the dispatcher serves at most one more event before it only drains. */
  lemma StopIsNoticed(cfg: Config, s: State, steps: seq<Step>)
    requires Reachable(cfg, s) && s.Stopped() && Run(cfg, s, steps).Some?
    ensures var t := Run(cfg, s, steps).value; t.Draining() || |t.log| <= |s.log| + 1
  {
    ReachableInv(cfg, s);
    EndingLasts(cfg, s, |s.log|, steps);
  }
}
