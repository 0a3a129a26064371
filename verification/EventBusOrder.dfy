/**
 PublishBatch's ordering contract.

 A batch is calm when its first ceiling was raised while no scan was under way that could still
 go past the most urgent queue. The handlers receive a calm batch's events by non-increasing
 priority and, inside a priority, in the caller's order, in every interleaving up to the moment
 the dispatcher starts its shutdown drain.
*/
module EventBusOrder {
  import opened Options
  import opened EventBusModel
  import opened EventBusInvariants

  /** The order a batch promises: by level, then by position in the argument list. */
  predicate Precedes(x: Entry, y: Entry) {
    Level(x.event) < Level(y.event) || (Level(x.event) == Level(y.event) && x.pos < y.pos)
  }

  /** The pass a batch is in; LEVELS once all passes are done. */
  function PassIndex(h: Holder): nat
    requires h.Publisher?
  {
    match h.pc
    case CheckClosing => 0
    case Raise(i) => i
    case Pass(i, _) => i
    case Enqueue(i, _, _, _) => i
    case Unlock => LEVELS
  }

  predicate CalmShape(s: State) {
    && (forall b :: b in s.calm ==> b < s.nextCall)
    && (s.holder.Publisher? && s.holder.call in s.calm ==>
          s.holder.batch && !s.holder.pc.CheckClosing? && s.holder.pc != Raise(0))
  }

  ghost predicate LogOrdered(s: State) {
    forall i, j :: 0 <= i < j < |s.log| && s.log[i].call == s.log[j].call && s.log[i].call in s.calm
      ==> Precedes(s.log[i], s.log[j])
  }

  ghost predicate LogBeforeQueues(s: State)
    requires Lengths(s)
  {
    forall i, l, j :: 0 <= i < |s.log| && 0 <= l < LEVELS && 0 <= j < |s.queues[l]| ==>
      s.log[i].call == s.queues[l][j].call && s.log[i].call in s.calm ==> Precedes(s.log[i], s.queues[l][j])
  }

  /**
   What the running scan has passed holds no event of a calm batch, and the scan stays behind a calm batch in
   flight.
  */
  ghost predicate ScanClear(s: State)
    requires Lengths(s)
  {
    s.disp.Scan? ==>
      && (forall l, j :: 0 <= l < s.disp.k && l < LEVELS && 0 <= j < |s.queues[l]| ==> s.queues[l][j].call !in s.calm)
      && (s.holder.Publisher? && s.holder.call in s.calm ==> s.disp.limit <= PassIndex(s.holder) + 1)
  }

  ghost predicate Ordered(s: State)
    requires Lengths(s)
  {
    CalmShape(s) && (!s.Draining() ==> LogOrdered(s) && LogBeforeQueues(s) && ScanClear(s))
  }

  // ---------- what is in the log or in a queue was accepted ----------

  lemma {:induction false} DeliveredWasRemoved(rs: seq<Removal>, x: Entry)
    requires x in Delivered(rs)
    ensures x in Entries(rs)
    decreases |rs|
  {
    var last := |rs| - 1;
    if !rs[last].evicted && x == rs[last].entry {
      assert Entries(rs)[last] == x;
    } else {
      DeliveredWasRemoved(rs[..last], x);
      var i :| 0 <= i < last && Entries(rs[..last])[i] == x;
      assert Entries(rs)[i] == x;
    }
  }

  lemma {:induction false} InOfLevel(xs: seq<Entry>, i: nat)
    requires i < |xs|
    ensures xs[i] in OfLevel(xs, Level(xs[i].event))
    decreases |xs|
  {
    if i < |xs| - 1 {
      InOfLevel(xs[..|xs| - 1], i);
    }
  }

  lemma LogWasAccepted(s: State, i: nat)
    requires Lengths(s) && Conserved(s) && InCallOrder(s) && i < |s.log|
    ensures Attributed(s, Level(s.log[i].event), s.log[i])
  {
    var x := s.log[i];
    var l := Level(x.event);
    InOfLevel(s.log, i);
    assert ConservedAt(s, l);
    DeliveredWasRemoved(s.removed[l], x);
    var j :| 0 <= j < |s.removed[l]| && Entries(s.removed[l])[j] == x;
    assert s.accepted[l][j] == x;
  }

  lemma QueueWasAccepted(s: State, l: nat, j: nat)
    requires Lengths(s) && Conserved(s) && InCallOrder(s) && l < LEVELS && j < |s.queues[l]|
    ensures Attributed(s, l, s.queues[l][j])
  {
    assert ConservedAt(s, l);
    assert s.accepted[l][|s.removed[l]| + j] == s.queues[l][j];
  }

  lemma QueueInCallOrder(s: State, l: nat, i: nat, j: nat)
    requires Lengths(s) && Conserved(s) && InCallOrder(s) && l < LEVELS && i < j < |s.queues[l]|
    ensures Earlier(s.queues[l][i], s.queues[l][j])
  {
    assert ConservedAt(s, l);
    assert s.accepted[l][|s.removed[l]| + i] == s.queues[l][i];
    assert s.accepted[l][|s.removed[l]| + j] == s.queues[l][j];
  }

  // ---------- preservation ----------

  lemma OrderedAccept(cfg: Config, s: State)
    requires Inv(cfg, s) && Ordered(s) && Ready(s)
    ensures Ordered(Accept(s))
  {
    var s', i, x := Accept(s), s.holder.pc.i, Current(s.holder);
    if !s.Draining() {
      forall a, l, j | 0 <= a < |s'.log| && 0 <= l < LEVELS && 0 <= j < |s'.queues[l]|
                    && s'.log[a].call == s'.queues[l][j].call && s'.log[a].call in s'.calm
        ensures Precedes(s'.log[a], s'.queues[l][j])
      {
        if j == |s.queues[l]| {
          LogWasAccepted(s, a);
        }
      }
    }
  }

  lemma OrderedEvict(cfg: Config, s: State)
    requires Inv(cfg, s) && Ordered(s) && Ready(s) && s.queues[s.holder.pc.i] != []
    ensures Ordered(Evict(s))
  {
    var s' := Evict(s);
    assert forall l, j :: 0 <= l < LEVELS && 0 <= j < |s'.queues[l]| ==>
      s'.queues[l][j] == s.queues[l][if l == s.holder.pc.i then j + 1 else j];
  }

  lemma OrderedAdvance(cfg: Config, s: State)
    requires Inv(cfg, s) && Ordered(s) && PublisherStep(cfg, s).Some? && !s.holder.pc.Enqueue?
    ensures Lengths(PublisherStep(cfg, s).value) && Ordered(PublisherStep(cfg, s).value)
  {
    var s' := PublisherStep(cfg, s).value;
    if s'.calm != s.calm {
      var b := s.holder.call;
      forall i | 0 <= i < |s.log|
        ensures s.log[i].call != b
      {
        LogWasAccepted(s, i);
      }
      forall l, j | 0 <= l < LEVELS && 0 <= j < |s.queues[l]|
        ensures s.queues[l][j].call != b
      {
        QueueWasAccepted(s, l, j);
      }
    }
  }

  lemma OrderedServe(cfg: Config, s: State, s': State, k: nat)
    requires Inv(cfg, s) && Ordered(s) && s.disp.Scan? && s.disp.k == k
    requires Serves(s, s', k) && s'.disp.CheckStop?
    ensures Lengths(s') && Ordered(s')
  {
    var x, n := s.queues[k][0], |s.log|;
    assert s'.log == s.log + [x];
    forall i, l, j | 0 <= i < |s'.log| && 0 <= l < LEVELS && 0 <= j < |s'.queues[l]|
                  && s'.log[i].call == s'.queues[l][j].call && s'.log[i].call in s'.calm
      ensures Precedes(s'.log[i], s'.queues[l][j])
    {
      var j' := if l == k then j + 1 else j;
      assert s'.queues[l][j] == s.queues[l][j'];
      if i == n {
        QueueWasAccepted(s, k, 0);
        QueueWasAccepted(s, l, j');
        if l == k {
          QueueInCallOrder(s, k, 0, j');
        }
      }
    }
  }

  lemma OrderedDispatcher(cfg: Config, s: State)
    requires Inv(cfg, s) && Ordered(s) && DispatcherStep(s).Some?
    ensures Lengths(DispatcherStep(s).value) && Ordered(DispatcherStep(s).value)
  {
    var s' := DispatcherStep(s).value;
    DispatcherFrame(s);
    DispatcherEffect(s);
    if s'.Draining() {
      assert CalmShape(s');
    } else if SameData(s, s') {
      assert LogOrdered(s') && LogBeforeQueues(s');
      assert s'.disp.Scan? && s.disp.LoadCeiling? && s.holder.Publisher? && s.holder.call in s.calm ==>
          s'.disp.limit <= PassIndex(s.holder) + 1;
      assert s'.disp.Scan? && s.disp.Scan? ==> s'.disp == Scan(s.disp.limit, s.disp.k + 1) && s.queues[s.disp.k] == [];
    } else {
      assert s.disp.Scan?;
      OrderedServe(cfg, s, s', s.disp.k);
    }
  }

  lemma OrderedCloser(cfg: Config, s: State)
    requires Inv(cfg, s) && Ordered(s) && CloserStep(s).Some?
    ensures Lengths(CloserStep(s).value) && Ordered(CloserStep(s).value)
  {
    var s' := CloserStep(s).value;
    CloserFrame(s);
    CloserEffect(s);
    if !SameData(s, s') {
      assert s'.Draining();
    } else {
      assert s'.holder == s.holder || s'.holder.Gate? || s'.holder.Free?;
    }
  }

  lemma OrderedPublisher(cfg: Config, s: State)
    requires Inv(cfg, s) && Ordered(s) && PublisherStep(cfg, s).Some?
    ensures Lengths(PublisherStep(cfg, s).value) && Ordered(PublisherStep(cfg, s).value)
  {
    if s.holder.pc.Enqueue? {
      var s' := PublisherStep(cfg, s).value;
      EnqueueEffect(cfg, s);
      if s' == Accept(s) {
        OrderedAccept(cfg, s);
      } else if s' == GiveUp(s) {
      } else if s.queues[s.holder.pc.i] != [] && s' == Evict(s) {
        OrderedEvict(cfg, s);
      }
    } else {
      OrderedAdvance(cfg, s);
    }
  }

  lemma OrderedStep(cfg: Config, s: State, step: Step)
    requires Inv(cfg, s) && Ordered(s) && Do(cfg, s, step).Some?
    ensures Lengths(Do(cfg, s, step).value) && Ordered(Do(cfg, s, step).value)
  {
    match step
    case PublisherMoves => OrderedPublisher(cfg, s);
    case DispatcherMoves => OrderedDispatcher(cfg, s);
    case CloserMoves => OrderedCloser(cfg, s);
    case PublisherStops =>
    case Signal =>
    case DispatcherStops =>
    case Acquire(_, _) =>
  }

  lemma {:induction false} OrderedRun(cfg: Config, s: State, steps: seq<Step>)
    requires Inv(cfg, s) && Ordered(s) && Run(cfg, s, steps).Some?
    ensures Inv(cfg, Run(cfg, s, steps).value) && Ordered(Run(cfg, s, steps).value)
    decreases |steps|
  {
    if steps != [] {
      InvStep(cfg, s, steps[0]);
      OrderedStep(cfg, s, steps[0]);
      OrderedRun(cfg, Do(cfg, s, steps[0]).value, steps[1..]);
    }
  }

  lemma ReachableOrdered(cfg: Config, s: State)
    requires Reachable(cfg, s)
    ensures Inv(cfg, s) && Ordered(s)
  {
    var steps :| Run(cfg, Init(), steps) == Some(s);
    InitInv(cfg);
    OrderedRun(cfg, Init(), steps);
  }

  // ---------- the contract ----------

  /**
   In every reachable state before the shutdown drain, the handlers have seen a calm batch's events
   in priority order and, inside a priority, in the caller's order, whatever the backpressure
   strategy did and whoever else published.
  */
  lemma CalmBatchDeliveredInOrder(cfg: Config, s: State, b: nat, i: nat, j: nat)
    requires Reachable(cfg, s) && !s.Draining()
    requires b in s.calm && i < j < |s.log| && s.log[i].call == b && s.log[j].call == b
    ensures Precedes(s.log[i], s.log[j])
  {
    ReachableOrdered(cfg, s);
  }

  /**
   While a calm batch is being written, a scan that is about to serve queue k does so only after
   every event of the batch that belongs to a more urgent queue was accepted or given up on.
  */
  lemma ScanWaitsForCalmBatch(cfg: Config, s: State, p: nat)
    requires Reachable(cfg, s) && s.disp.Scan?
    requires s.holder.Publisher? && s.holder.call in s.calm && p < |s.holder.events|
    requires Level(s.holder.events[p]) < s.disp.k
    ensures Lengths(s) && Settled(s, p)
  {
    ReachableOrdered(cfg, s);
    assert Passed(s.holder, Level(s.holder.events[p]), p);
  }
}
