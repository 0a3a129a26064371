/**
 When the order that PublishBatch promises can fail, in terms of the call alone: which argument lists, under
 which configuration, have a run in which the handlers see the batch out of order.
*/
module EventBusCallOrder {
  import opened Options
  import opened EventBusModel
  import opened EventBusInvariants
  import opened EventBusOrder
  import opened EventBusInversion
  import opened EventBusDelivery

  // ---------- the condition ----------

  /** How many events of a list go to queue l. */
  function Count(events: seq<Event>, l: nat): nat {
    if events == [] then 0
    else Count(events[..|events| - 1], l) + if Level(events[|events| - 1]) == l then 1 else 0
  }

  ghost predicate Holds(events: seq<Event>, l: nat) { exists p :: 0 <= p < |events| && Level(events[p]) == l }

  /** a and b are the most urgent level of the list and the next one it holds. */
  ghost predicate TopTwo(events: seq<Event>, a: nat, b: nat) {
    && a < b < LEVELS && Holds(events, a) && Holds(events, b)
    && forall p :: 0 <= p < |events| ==> Level(events[p]) == a || b <= Level(events[p])
  }

  /**
   The batch spans two levels, and nothing makes its first pass wait: the strategy never waits, or the events of
   its most urgent level fit an empty queue.
  */
  ghost predicate Exposed(cfg: Config, events: seq<Event>) {
    exists a, b :: TopTwo(events, a, b) && (cfg.strategy.Block? ==> Count(events, a) <= cfg.Capacity())
  }

  /** Some PublishBatch call with these events is at some moment delivered out of order. */
  ghost predicate CanInvert(cfg: Config, events: seq<Event>) {
    exists s, t :: Started(cfg, s, events, t) && Inverted(t, s.nextCall)
  }

  /** A call with these events takes the publish mutex in the reachable state s, and t follows. */
  ghost predicate Started(cfg: Config, s: State, events: seq<Event>, t: State) {
    && Reachable(cfg, s) && Do(cfg, s, Acquire(true, events)).Some?
    && Leads(cfg, Do(cfg, s, Acquire(true, events)).value, t)
  }

  // ---------- what is recorded under a call's number is its own ----------

  ghost predicate MyEntry(events: seq<Event>, x: Entry) { x.pos < |events| && x.event == events[x.pos] }

  ghost predicate Mine(s: State, b: nat, events: seq<Event>)
    requires Lengths(s)
  {
    && b < s.nextCall
    && (s.holder.Publisher? && s.holder.call == b ==> s.holder.batch && s.holder.events == events)
    && (forall l, i :: 0 <= l < LEVELS && 0 <= i < |s.accepted[l]| && s.accepted[l][i].call == b ==>
        MyEntry(events, s.accepted[l][i]))
  }

  lemma MineAcquired(cfg: Config, s: State, events: seq<Event>)
    requires Inv(cfg, s) && Do(cfg, s, Acquire(true, events)).Some?
    ensures Mine(Do(cfg, s, Acquire(true, events)).value, s.nextCall, events)
  {
    forall l, i | 0 <= l < LEVELS && 0 <= i < |s.accepted[l]|
      ensures s.accepted[l][i].call != s.nextCall
    {
      assert Attributed(s, l, s.accepted[l][i]);
    }
  }

  lemma MineEnqueue(cfg: Config, s: State, b: nat, events: seq<Event>)
    requires Inv(cfg, s) && Mine(s, b, events) && EnqueueStep(cfg, s).Some?
    ensures Lengths(EnqueueStep(cfg, s).value) && Mine(EnqueueStep(cfg, s).value, b, events)
  {
    EnqueueEffect(cfg, s);
    EnqueueQueues(cfg, s);
  }

  lemma MineStep(cfg: Config, s: State, b: nat, events: seq<Event>, step: Step)
    requires Inv(cfg, s) && Mine(s, b, events) && Do(cfg, s, step).Some?
    ensures Lengths(Do(cfg, s, step).value) && Mine(Do(cfg, s, step).value, b, events)
  {
    ShapeStep(cfg, s, step);
    if step.PublisherMoves? && s.holder.pc.Enqueue? {
      MineEnqueue(cfg, s, b, events);
    } else if step.DispatcherMoves? {
      DispatcherFrame(s);
    } else if step.CloserMoves? {
      CloserFrame(s);
    }
  }

  // ---------- a batch of one level ----------

  lemma {:induction false} DeliveredInOrder(rs: seq<Removal>, i: nat, j: nat)
    requires forall m, n :: 0 <= m < n < |rs| ==> Earlier(rs[m].entry, rs[n].entry)
    requires i < j < |Delivered(rs)|
    ensures Earlier(Delivered(rs)[i], Delivered(rs)[j])
    decreases |rs|
  {
    var last := |rs| - 1;
    var front := rs[..last];
    if j < |Delivered(front)| {
      DeliveredInOrder(front, i, j);
    } else {
      DeliveredWasRemoved(front, Delivered(front)[i]);
      var m :| 0 <= m < last && Entries(front)[m] == Delivered(front)[i];
      assert rs[m].entry == Delivered(rs)[i];
    }
  }

  lemma {:induction false} LevelInOrder(xs: seq<Entry>, l: nat, i: nat, j: nat)
    requires forall m, n :: 0 <= m < n < |OfLevel(xs, l)| ==> Earlier(OfLevel(xs, l)[m], OfLevel(xs, l)[n])
    requires i < j < |xs| && Level(xs[i].event) == l && Level(xs[j].event) == l
    ensures Earlier(xs[i], xs[j])
    decreases |xs|
  {
    var last := |xs| - 1;
    var front := xs[..last];
    if j < last {
      assert forall m :: 0 <= m < |OfLevel(front, l)| ==> OfLevel(front, l)[m] == OfLevel(xs, l)[m];
      LevelInOrder(front, l, i, j);
    } else {
      InOfLevel(front, i);
      var m :| 0 <= m < |OfLevel(front, l)| && OfLevel(front, l)[m] == xs[i];
      assert OfLevel(xs, l)[m] == xs[i] && OfLevel(xs, l)[|OfLevel(front, l)|] == xs[j];
    }
  }

  /** The handlers see the events of one level in call order and, inside a call, in argument order. */
  lemma LogInCallOrder(cfg: Config, s: State, i: nat, j: nat)
    requires Inv(cfg, s) && i < j < |s.log| && Level(s.log[i].event) == Level(s.log[j].event)
    ensures Earlier(s.log[i], s.log[j])
  {
    var l := Level(s.log[i].event);
    assert ConservedAt(s, l);
    var rs := s.removed[l];
    forall m, n | 0 <= m < n < |rs|
      ensures Earlier(rs[m].entry, rs[n].entry)
    {
      assert s.accepted[l][m] == rs[m].entry && s.accepted[l][n] == rs[n].entry;
    }
    forall m, n | 0 <= m < n < |OfLevel(s.log, l)|
      ensures Earlier(OfLevel(s.log, l)[m], OfLevel(s.log, l)[n])
    {
      DeliveredInOrder(rs, m, n);
    }
    LevelInOrder(s.log, l, i, j);
  }

  lemma LogIsMine(cfg: Config, s: State, b: nat, events: seq<Event>, i: nat)
    requires Inv(cfg, s) && Mine(s, b, events) && i < |s.log| && s.log[i].call == b
    ensures MyEntry(events, s.log[i])
  {
    var x := s.log[i];
    var l := Level(x.event);
    InOfLevel(s.log, i);
    assert ConservedAt(s, l);
    DeliveredWasRemoved(s.removed[l], x);
    var j :| 0 <= j < |s.removed[l]| && Entries(s.removed[l])[j] == x;
    assert s.accepted[l][j] == x;
  }

  lemma OneLevelInOrder(cfg: Config, s: State, b: nat, events: seq<Event>)
    requires Inv(cfg, s) && Mine(s, b, events)
    requires forall p, q :: 0 <= p < |events| && 0 <= q < |events| ==> Level(events[p]) == Level(events[q])
    ensures !Inverted(s, b)
  {
    forall i, j | 0 <= i < j < |s.log| && s.log[i].call == b && s.log[j].call == b
      ensures Precedes(s.log[i], s.log[j])
    {
      LogIsMine(cfg, s, b, events, i);
      LogIsMine(cfg, s, b, events, j);
      LogInCallOrder(cfg, s, i, j);
    }
  }

  // ---------- a batch whose first pass has to wait ----------

  /** The call has not raised its first ceiling. */
  predicate NotRaised(s: State, b: nat) {
    s.holder.Publisher? && s.holder.call == b && (s.holder.pc.CheckClosing? || s.holder.pc == Raise(0))
  }

  /** The call is not past pass a, and the scan that was under way when it began has served nothing since. */
  ghost predicate Held(s: State, b: nat, a: nat)
    requires Lengths(s)
  {
    && !s.Stopped() && s.disp.Scan?
    && s.holder.Publisher? && s.holder.call == b && s.holder.batch
    && !s.holder.pc.CheckClosing? && s.holder.pc != Raise(0) && PassIndex(s.holder) <= a
    && Silent(s, b)
  }

  /** Nothing of the call has left its queue. */
  ghost predicate Silent(s: State, b: nat)
    requires Lengths(s)
  {
    && (forall l, i :: 0 <= l < LEVELS && 0 <= i < |s.removed[l]| ==> s.removed[l][i].entry.call != b)
    && (forall i :: 0 <= i < |s.log| ==> s.log[i].call != b)
  }

  /** From here on the call is as good as calm. */
  ghost predicate LikeCalm(s: State, b: nat)
    requires Lengths(s)
  {
    Ordered(s.(calm := s.calm + {b}))
  }

  /** The bus stops: apart from the drain at most one event is still handed out. */
  ghost predicate Ending(s: State, b: nat) {
    && s.Stopped()
    && (s.Draining()
        || (s.disp.Scan? && forall i :: 0 <= i < |s.log| ==> s.log[i].call != b)
        || ((s.disp.CheckStop? || s.disp.Park?) && forall i, j :: 0 <= i < j < |s.log| ==>
            s.log[i].call != b || s.log[j].call != b))
  }

  /** The call gave up before writing anything. */
  ghost predicate Absent(s: State, b: nat)
    requires Lengths(s)
  {
    && b < s.nextCall && !(s.holder.Publisher? && s.holder.call == b)
    && (forall l, i :: 0 <= l < LEVELS && 0 <= i < |s.accepted[l]| ==> s.accepted[l][i].call != b)
  }

  ghost predicate Phases(s: State, b: nat, a: nat)
    requires Lengths(s)
  {
    NotRaised(s, b) || Held(s, b, a) || LikeCalm(s, b) || Ending(s, b) || Absent(s, b)
  }

  lemma NotRaisedIsSilent(cfg: Config, s: State, b: nat)
    requires Inv(cfg, s) && NotRaised(s, b)
    ensures Silent(s, b) && forall l, i :: 0 <= l < LEVELS && 0 <= i < |s.accepted[l]| ==> s.accepted[l][i].call != b
  {
    forall l, i | 0 <= l < LEVELS && 0 <= i < |s.accepted[l]|
      ensures s.accepted[l][i].call != b
    {
      assert Attributed(s, l, s.accepted[l][i]);
    }
    forall l, i | 0 <= l < LEVELS && 0 <= i < |s.removed[l]|
      ensures s.removed[l][i].entry.call != b
    {
      assert ConservedAt(s, l);
      assert s.accepted[l][i] == s.removed[l][i].entry;
    }
    forall i | 0 <= i < |s.log|
      ensures s.log[i].call != b
    {
      LogWasAccepted(s, i);
    }
  }

  /** In none of the phases is the batch out of order. */
  lemma PhasesInOrder(cfg: Config, s: State, b: nat, a: nat)
    requires Inv(cfg, s) && Phases(s, b, a)
    ensures !Inverted(s, b)
  {
    if NotRaised(s, b) {
      NotRaisedIsSilent(cfg, s, b);
    } else if Absent(s, b) {
      AbsentFromLog(cfg, s, b);
    } else if LikeCalm(s, b) && !s.Draining() {
      assert LogOrdered(s.(calm := s.calm + {b}));
    }
  }

  lemma AbsentFromLog(cfg: Config, s: State, b: nat)
    requires Inv(cfg, s) && Absent(s, b)
    ensures forall i :: 0 <= i < |s.log| ==> s.log[i].call != b
  {
    forall i | 0 <= i < |s.log|
      ensures s.log[i].call != b
    {
      var x := s.log[i];
      var l := Level(x.event);
      InOfLevel(s.log, i);
      assert ConservedAt(s, l);
      DeliveredWasRemoved(s.removed[l], x);
      var j :| 0 <= j < |s.removed[l]| && Entries(s.removed[l])[j] == x;
      assert s.accepted[l][j] == x;
    }
  }

  // ---------- each phase leads to a phase ----------

  // The set of calm batches is read by no step.
  lemma CalmIsHistory(cfg: Config, s: State, b: nat, step: Step)
    requires Do(cfg, s, step).Some?
    ensures var s' := Do(cfg, s, step).value;
      Do(cfg, s.(calm := s.calm + {b}), step) == Some(s'.(calm := s'.calm + {b}))
  {
    if step.PublisherMoves? {
      CalmIsHistoryPublisher(cfg, s, b);
    } else if step.DispatcherMoves? {
      CalmIsHistoryDispatcher(s, b);
    } else if step.CloserMoves? {
      CalmIsHistoryCloser(s, b);
    }
  }

  lemma CalmIsHistoryDispatcher(s: State, b: nat)
    requires DispatcherStep(s).Some?
    ensures var s' := DispatcherStep(s).value;
      DispatcherStep(s.(calm := s.calm + {b})) == Some(s'.(calm := s'.calm + {b}))
  {
    DispatcherFrame(s);
  }

  lemma CalmIsHistoryCloser(s: State, b: nat)
    requires CloserStep(s).Some?
    ensures var s' := CloserStep(s).value; CloserStep(s.(calm := s.calm + {b})) == Some(s'.(calm := s'.calm + {b}))
  {
    CloserFrame(s);
  }

  lemma CalmIsHistoryPublisher(cfg: Config, s: State, b: nat)
    requires PublisherStep(cfg, s).Some?
    ensures var s' := PublisherStep(cfg, s).value;
      PublisherStep(cfg, s.(calm := s.calm + {b})) == Some(s'.(calm := s'.calm + {b}))
  {
    if s.holder.pc.Enqueue? {
      EnqueueFrame(cfg, s);
    } else if s.holder.pc == Raise(0) && !s.WideScan() {
      assert s.calm + {b} + {s.holder.call} == s.calm + {s.holder.call} + {b};
    }
  }

  lemma LikeCalmStep(cfg: Config, s: State, b: nat, step: Step)
    requires Inv(cfg, s) && LikeCalm(s, b) && Do(cfg, s, step).Some?
    ensures Lengths(Do(cfg, s, step).value) && LikeCalm(Do(cfg, s, step).value, b)
  {
    var c := s.(calm := s.calm + {b});
    CalmIsHistory(cfg, s, b, step);
    assert Inv(cfg, c) by {
      InvIgnoresCalm(cfg, s, c);
    }
    OrderedStep(cfg, c, step);
  }

  lemma InvIgnoresCalm(cfg: Config, s: State, c: State)
    requires Inv(cfg, s) && c == s.(calm := c.calm)
    ensures Inv(cfg, c)
  {
    forall l | 0 <= l < LEVELS
      ensures ConservedAt(c, l)
    {
      assert ConservedAt(s, l);
    }
    forall l, i | 0 <= l < LEVELS && 0 <= i < |c.accepted[l]|
      ensures Attributed(c, l, c.accepted[l][i])
    {
      assert Attributed(s, l, s.accepted[l][i]);
    }
    if c.holder.Publisher? {
      forall p | 0 <= p < |c.holder.events| && Passed(c.holder, Level(c.holder.events[p]), p)
        ensures Settled(c, p)
      {
        assert Settled(s, p);
      }
    }
  }

  lemma EndingStep(cfg: Config, s: State, b: nat, step: Step)
    requires Inv(cfg, s) && Ending(s, b) && Do(cfg, s, step).Some?
    ensures Ending(Do(cfg, s, step).value, b)
  {
    if step.PublisherMoves? && s.holder.pc.Enqueue? {
      EnqueueFrame(cfg, s);
    } else if step.DispatcherMoves? {
      DispatcherFrame(s);
    } else if step.CloserMoves? {
      CloserFrame(s);
      CloserEffect(s);
    }
  }

  lemma AbsentStep(cfg: Config, s: State, b: nat, step: Step)
    requires Inv(cfg, s) && Absent(s, b) && Do(cfg, s, step).Some?
    ensures Lengths(Do(cfg, s, step).value) && Absent(Do(cfg, s, step).value, b)
  {
    ShapeStep(cfg, s, step);
    if step.PublisherMoves? && s.holder.pc.Enqueue? {
      EnqueueEffect(cfg, s);
    } else if step.DispatcherMoves? {
      DispatcherFrame(s);
    } else if step.CloserMoves? {
      CloserFrame(s);
    }
  }

  lemma NotRaisedStep(cfg: Config, s: State, b: nat, a: nat, step: Step)
    requires Inv(cfg, s) && Ordered(s) && NotRaised(s, b) && s.holder.batch && Do(cfg, s, step).Some?
    ensures Lengths(Do(cfg, s, step).value) && Phases(Do(cfg, s, step).value, b, a)
  {
    var s' := Do(cfg, s, step).value;
    ShapeStep(cfg, s, step);
    if step.PublisherMoves? {
      NotRaisedIsSilent(cfg, s, b);
      if s.holder.pc == Raise(0) && !s.WideScan() {
        OrderedStep(cfg, s, step);
        assert s'.calm + {b} == s'.calm;
      }
    } else if step.DispatcherMoves? {
      DispatcherFrame(s);
    } else if step.CloserMoves? {
      CloserFrame(s);
    }
  }

  // A list that contains n different entries has at least n elements.
  lemma {:induction false} CountFits(events: seq<Event>, n: nat, a: nat, b: nat, q: seq<Entry>)
    requires n <= |events| && forall p :: 0 <= p < n && Level(events[p]) == a ==> Entry(events[p], b, p) in q
    ensures Count(events[..n], a) <= |q|
  {
    var xs := Positions(events, n, a, b);
    forall x | x in xs
      ensures x in q
    {
    }
    DistinctFit(xs, q);
  }

  /** The entries of level a among the first n events. */
  ghost function Positions(events: seq<Event>, n: nat, a: nat, b: nat): (xs: set<Entry>)
    requires n <= |events|
    ensures |xs| == Count(events[..n], a)
    ensures forall x :: x in xs ==> x.pos < n && Level(events[x.pos]) == a && x == Entry(events[x.pos], b, x.pos)
    decreases n
  {
    if n == 0 then {}
    else
      var xs := Positions(events, n - 1, a, b);
      assert events[..n][..n - 1] == events[..n - 1];
      if Level(events[n - 1]) == a then xs + {Entry(events[n - 1], b, n - 1)} else xs
  }

  lemma {:induction false} DistinctFit(xs: set<Entry>, q: seq<Entry>)
    requires forall x :: x in xs ==> x in q
    ensures |xs| <= |q|
    decreases |q|
  {
    if q == [] {
      assert xs == {};
    } else {
      assert forall x :: x in xs - {q[0]} ==> x in q[1..];
      DistinctFit(xs - {q[0]}, q[1..]);
      assert |xs| <= |xs - {q[0]}| + 1;
    }
  }

  /** What the condition excludes: a list under Block whose most urgent events overflow their queue. */
  ghost predicate Overflows(cfg: Config, events: seq<Event>, a: nat) {
    && cfg.strategy.Block? && a < LEVELS && Count(events, a) > cfg.Capacity()
    && forall p :: 0 <= p < |events| ==> a <= Level(events[p])
  }

  // While nothing of the call has left its queue, the events already passed are in it.
  lemma PassedIsQueued(cfg: Config, s: State, b: nat, events: seq<Event>, a: nat, p: nat)
    requires Inv(cfg, s) && Mine(s, b, events) && KeepsEvents(cfg, s) && Overflows(cfg, events, a) && Held(s, b, a)
    requires p < |events| && Level(events[p]) == a && Passed(s.holder, a, p)
    ensures Entry(events[p], b, p) in s.queues[a]
  {
    var x := Entry(events[p], b, p);
    assert Settled(s, p);
    assert ConservedAt(s, a);
    assert forall i :: 0 <= i < |s.removed[a]| ==> s.accepted[a][i] == s.removed[a][i].entry;
    var i :| 0 <= i < |s.accepted[a]| && s.accepted[a][i] == x;
    assert s.queues[a][i - |s.removed[a]|] == x;
  }

  /** The overflowing pass does not end while the scan has served nothing. */
  lemma PassUnfinished(cfg: Config, s: State, b: nat, events: seq<Event>, a: nat)
    requires Inv(cfg, s) && Mine(s, b, events) && KeepsEvents(cfg, s) && Overflows(cfg, events, a) && Held(s, b, a)
    ensures s.holder.pc.Pass? && s.holder.pc.i == a ==> s.holder.pc.n < |events|
  {
    if s.holder.pc.Pass? && s.holder.pc.i == a && s.holder.pc.n >= |events| {
      forall p | 0 <= p < |events| && Level(events[p]) == a
        ensures Entry(events[p], b, p) in s.queues[a]
      {
        PassedIsQueued(cfg, s, b, events, a, p);
      }
      assert events[..|events|] == events;
      CountFits(events, |events|, a, b, s.queues[a]);
      assert false;
    }
  }

  lemma HeldPublisher(cfg: Config, s: State, b: nat, events: seq<Event>, a: nat)
    requires Inv(cfg, s) && Mine(s, b, events) && KeepsEvents(cfg, s) && Overflows(cfg, events, a) && Held(s, b, a)
    requires PublisherStep(cfg, s).Some?
    ensures Lengths(PublisherStep(cfg, s).value) && Held(PublisherStep(cfg, s).value, b, a)
  {
    if s.holder.pc.Enqueue? {
      EnqueueEffect(cfg, s);
      EnqueueQueues(cfg, s);
      EnqueueFrame(cfg, s);
    } else {
      PassUnfinished(cfg, s, b, events, a);
    }
  }

  // So far the call has written to queue a only.
  lemma QueuedAtFirstLevel(cfg: Config, s: State, b: nat, events: seq<Event>, a: nat, l: nat, j: nat)
    requires Inv(cfg, s) && Mine(s, b, events) && Overflows(cfg, events, a) && Held(s, b, a)
    requires l < LEVELS && j < |s.queues[l]| && s.queues[l][j].call == b
    ensures l == a
  {
    QueueWasAccepted(s, l, j);
    assert ConservedAt(s, l);
    assert s.accepted[l][|s.removed[l]| + j] == s.queues[l][j];
  }

  lemma HeldServes(cfg: Config, s: State, b: nat, events: seq<Event>, a: nat, s': State, k: nat)
    requires Inv(cfg, s) && Mine(s, b, events) && Overflows(cfg, events, a) && Held(s, b, a)
    requires Serves(s, s', k) && s'.disp.CheckStop? && Lengths(s') && Ordered(s')
    ensures LikeCalm(s', b)
  {
    var c, n := s'.(calm := s'.calm + {b}), |s.log|;
    assert s'.log == s.log + [s.queues[k][0]];
    forall i, l, j | 0 <= i < |c.log| && 0 <= l < LEVELS && 0 <= j < |c.queues[l]|
                  && c.log[i].call == c.queues[l][j].call && c.log[i].call in c.calm
      ensures Precedes(c.log[i], c.queues[l][j])
    {
      if c.log[i].call == b {
        var j' := if l == k then j + 1 else j;
        assert c.queues[l][j] == s.queues[l][j'] && i == n;
        QueuedAtFirstLevel(cfg, s, b, events, a, l, j');
        QueuedAtFirstLevel(cfg, s, b, events, a, k, 0);
        QueueWasAccepted(s, k, 0);
        QueueWasAccepted(s, l, j');
        QueueInCallOrder(s, k, 0, j');
      } else {
        assert LogBeforeQueues(s');
      }
    }
    assert LogOrdered(s');
  }

  lemma HeldParks(cfg: Config, s: State, b: nat, a: nat, s': State)
    requires Inv(cfg, s) && Held(s, b, a) && s' == s.(disp := s'.disp) && s'.disp.Park? && Ordered(s')
    ensures LikeCalm(s', b)
  {
    var c := s'.(calm := s'.calm + {b});
    assert LogOrdered(s') && LogBeforeQueues(s');
    assert LogOrdered(c) && LogBeforeQueues(c);
  }

  lemma HeldDispatcher(cfg: Config, s: State, b: nat, events: seq<Event>, a: nat)
    requires Inv(cfg, s) && Ordered(s) && Mine(s, b, events) && Overflows(cfg, events, a) && Held(s, b, a)
    requires DispatcherStep(s).Some?
    ensures Lengths(DispatcherStep(s).value) && Phases(DispatcherStep(s).value, b, a)
  {
    var s' := DispatcherStep(s).value;
    OrderedStep(cfg, s, DispatcherMoves);
    if s.queues[s.disp.k] != [] {
      HeldServes(cfg, s, b, events, a, s', s.disp.k);
    } else if s'.disp.Park? {
      HeldParks(cfg, s, b, a, s');
    }
  }

  lemma HeldStep(cfg: Config, s: State, b: nat, events: seq<Event>, a: nat, step: Step)
    requires Inv(cfg, s) && Ordered(s) && Mine(s, b, events) && KeepsEvents(cfg, s) && Overflows(cfg, events, a)
        && Held(s, b, a)
    requires Do(cfg, s, step).Some?
    ensures Lengths(Do(cfg, s, step).value) && Phases(Do(cfg, s, step).value, b, a)
  {
    if step.PublisherMoves? {
      HeldPublisher(cfg, s, b, events, a);
    } else if step.DispatcherMoves? {
      HeldDispatcher(cfg, s, b, events, a);
    } else if step.CloserMoves? {
      CloserFrame(s);
    }
  }

  lemma PhasesStep(cfg: Config, s: State, b: nat, events: seq<Event>, a: nat, step: Step)
    requires Inv(cfg, s) && Ordered(s) && Mine(s, b, events) && KeepsEvents(cfg, s) && Overflows(cfg, events, a)
    requires Phases(s, b, a) && Do(cfg, s, step).Some?
    ensures Lengths(Do(cfg, s, step).value) && Phases(Do(cfg, s, step).value, b, a)
  {
    ShapeStep(cfg, s, step);
    if NotRaised(s, b) {
      NotRaisedStep(cfg, s, b, a, step);
    } else if Held(s, b, a) {
      HeldStep(cfg, s, b, events, a, step);
    } else if LikeCalm(s, b) {
      LikeCalmStep(cfg, s, b, step);
    } else if Ending(s, b) {
      EndingStep(cfg, s, b, step);
    } else {
      AbsentStep(cfg, s, b, step);
    }
  }

  // ---------- runs of a call ----------

  /** Everything known of a call's own records in a state. */
  ghost predicate Known(cfg: Config, s: State, b: nat, events: seq<Event>) {
    Inv(cfg, s) && Ordered(s) && Delivery(cfg, s) && Mine(s, b, events)
  }

  lemma KnownStep(cfg: Config, s: State, b: nat, events: seq<Event>, step: Step)
    requires Known(cfg, s, b, events) && Do(cfg, s, step).Some?
    ensures Known(cfg, Do(cfg, s, step).value, b, events)
  {
    InvStep(cfg, s, step);
    OrderedStep(cfg, s, step);
    DeliveryStep(cfg, s, step);
    MineStep(cfg, s, b, events, step);
  }

  lemma {:induction false} KnownRun(cfg: Config, s: State, b: nat, events: seq<Event>, steps: seq<Step>)
    requires Known(cfg, s, b, events) && Run(cfg, s, steps).Some?
    ensures Known(cfg, Run(cfg, s, steps).value, b, events)
    decreases |steps|
  {
    if steps != [] {
      KnownStep(cfg, s, b, events, steps[0]);
      KnownRun(cfg, Do(cfg, s, steps[0]).value, b, events, steps[1..]);
    }
  }

  lemma {:induction false} PhasesRun(cfg: Config, s: State, b: nat, events: seq<Event>, a: nat, steps: seq<Step>)
    requires Known(cfg, s, b, events) && Overflows(cfg, events, a) && Phases(s, b, a) && Run(cfg, s, steps).Some?
    ensures Known(cfg, Run(cfg, s, steps).value, b, events) && Phases(Run(cfg, s, steps).value, b, a)
    decreases |steps|
  {
    if steps != [] {
      KnownStep(cfg, s, b, events, steps[0]);
      PhasesStep(cfg, s, b, events, a, steps[0]);
      PhasesRun(cfg, Do(cfg, s, steps[0]).value, b, events, a, steps[1..]);
    }
  }

  lemma StartedIsKnown(cfg: Config, s: State, events: seq<Event>)
    requires Reachable(cfg, s) && Do(cfg, s, Acquire(true, events)).Some?
    ensures var u := Do(cfg, s, Acquire(true, events)).value;
      Known(cfg, u, s.nextCall, events) && NotRaised(u, s.nextCall)
  {
    ReachableOrdered(cfg, s);
    ReachableDelivery(cfg, s);
    InvStep(cfg, s, Acquire(true, events));
    OrderedStep(cfg, s, Acquire(true, events));
    DeliveryStep(cfg, s, Acquire(true, events));
    MineAcquired(cfg, s, events);
  }

  // ---------- the inverting run ----------

  /** The call holds the mutex at pc; the scan stands at queue b; only queue a may hold events, all of the call. */
  ghost predicate Staged(cfg: Config, s: State, events: seq<Event>, a: nat, b: nat, pc: PubPc) {
    && Lengths(s) && a < LEVELS && b < LEVELS
    && s.holder.Publisher? && s.holder.call == 0 && s.holder.batch && s.holder.events == events && s.holder.pc == pc
    && s.disp == Scan(LEVELS, b) && s.closer.Idle? && s.log == []
    && (forall l :: 0 <= l < LEVELS && l != a ==> s.queues[l] == [])
    && (forall j :: 0 <= j < |s.queues[a]| ==> s.queues[a][j].call == 0 && Level(s.queues[a][j].event) == a)
    && |s.queues[a]| <= cfg.Capacity()
  }

  // One action of the publisher that is not part of an enqueue.
  lemma StagedAdvance(cfg: Config, s0: State, s: State, events: seq<Event>, a: nat, b: nat,
      pc: PubPc) returns (t: State)
    requires Leads(cfg, s0, s) && Staged(cfg, s, events, a, b, pc) && !pc.Enqueue? && !pc.Unlock?
    ensures Leads(cfg, s0, t) && Staged(cfg, t, events, a, b, Advance(s.holder, false).pc) && t.queues == s.queues
    ensures t.ceiling == if pc.Raise? then (if pc.i < LEVELS then pc.i + 1 else 0) else s.ceiling
  {
    t := PublisherStep(cfg, s).value;
    LeadsVia(cfg, s0, s, PublisherMoves);
  }

  // A pass that holds none of the events.
  lemma StagedSkip(cfg: Config, s0: State, s: State, events: seq<Event>, a: nat, b: nat, i: nat) returns (t: State)
    requires Leads(cfg, s0, s) && Staged(cfg, s, events, a, b, Raise(i)) && i < LEVELS
    requires forall p :: 0 <= p < |events| ==> Level(events[p]) != i
    ensures Leads(cfg, s0, t) && Staged(cfg, t, events, a, b, Raise(i + 1)) && t.queues == s.queues
  {
    t := StagedAdvance(cfg, s0, s, events, a, b, Raise(i));
    for n := 0 to |events|
      invariant Leads(cfg, s0, t) && Staged(cfg, t, events, a, b, Pass(i, n)) && t.queues == s.queues
    {
      t := StagedAdvance(cfg, s0, t, events, a, b, Pass(i, n));
    }
    t := StagedAdvance(cfg, s0, t, events, a, b, Pass(i, |events|));
  }

  lemma {:induction false} StagedSkips(cfg: Config, s0: State, s: State, events: seq<Event>, a: nat, b: nat, i: nat,
      k: nat) returns (t: State)
    requires Leads(cfg, s0, s) && Staged(cfg, s, events, a, b, Raise(i)) && i <= k < LEVELS
    requires forall p :: 0 <= p < |events| ==> !(i <= Level(events[p]) < k)
    ensures Leads(cfg, s0, t) && Staged(cfg, t, events, a, b, Raise(k)) && t.queues == s.queues
    decreases k - i
  {
    t := s;
    if i < k {
      t := StagedSkip(cfg, s0, s, events, a, b, i);
      t := StagedSkips(cfg, s0, t, events, a, b, i + 1, k);
    }
  }

  // An event for queue a is written, or dropped, or written in place of the oldest; the queue is not empty afterwards.
  lemma StagedEnqueue(cfg: Config, s0: State, s: State, events: seq<Event>, a: nat, b: nat, n: nat) returns (t: State)
    requires Leads(cfg, s0, s) && Staged(cfg, s, events, a, b, Enqueue(a, n, Try, false))
    requires n < |events| && Level(events[n]) == a && (cfg.strategy.Block? ==> |s.queues[a]| < cfg.Capacity())
    ensures Leads(cfg, s0, t) && Staged(cfg, t, events, a, b, Pass(a, n + 1)) && t.queues[a] != []
    ensures cfg.strategy.Block? ==> |t.queues[a]| == |s.queues[a]| + 1
  {
    t := s;
    if |s.queues[a]| >= cfg.Capacity() && cfg.strategy.DropOldest? {
      t := StagedEvict(cfg, s0, s, events, a, b, n);
    }
    LeadsVia(cfg, s0, t, PublisherMoves);
    t := PublisherStep(cfg, t).value;
  }

  lemma StagedEvict(cfg: Config, s0: State, s: State, events: seq<Event>, a: nat, b: nat, n: nat) returns (t: State)
    requires Leads(cfg, s0, s) && Staged(cfg, s, events, a, b, Enqueue(a, n, Try, false)) && n < |events|
    requires cfg.strategy.DropOldest? && |s.queues[a]| >= cfg.Capacity()
    ensures Leads(cfg, s0, t) && Staged(cfg, t, events, a, b, Enqueue(a, n, Try, true))
        && |t.queues[a]| < cfg.Capacity()
  {
    t := PublisherStep(cfg, s).value;
    LeadsVia(cfg, s0, s, PublisherMoves);
    assert t == SetPhase(s, EvictSelect);
    var u := PublisherStep(cfg, t).value;
    LeadsVia(cfg, s0, t, PublisherMoves);
    assert u == Evict(t);
    t := u;
  }

  lemma CountNext(events: seq<Event>, n: nat, l: nat)
    requires n < |events|
    ensures Count(events[..n + 1], l) == Count(events[..n], l) + if Level(events[n]) == l then 1 else 0
  {
    assert events[..n + 1][..n] == events[..n];
  }

  lemma {:induction false} CountGrows(events: seq<Event>, n: nat, l: nat)
    requires n <= |events|
    ensures Count(events[..n], l) <= Count(events, l)
    decreases |events|
  {
    if n < |events| {
      var front := events[..|events| - 1];
      assert front[..n] == events[..n];
      CountGrows(front, n, l);
    } else {
      assert events[..n] == events;
    }
  }

  lemma {:induction false} HeldIsCounted(events: seq<Event>, l: nat)
    requires Holds(events, l)
    ensures Count(events, l) > 0
    decreases |events|
  {
    var last := |events| - 1;
    if Level(events[last]) != l {
      var p :| 0 <= p < |events| && Level(events[p]) == l;
      assert Holds(events[..last], l) by {
        assert events[..last][p] == events[p];
      }
      HeldIsCounted(events[..last], l);
    }
  }

  // The pass of the most urgent level.
  lemma StagedPass(cfg: Config, s0: State, s: State, events: seq<Event>, a: nat, b: nat) returns (t: State)
    requires Leads(cfg, s0, s) && Staged(cfg, s, events, a, b, Raise(a)) && s.queues[a] == [] && Holds(events, a)
    requires cfg.strategy.Block? ==> Count(events, a) <= cfg.Capacity()
    ensures Leads(cfg, s0, t) && Staged(cfg, t, events, a, b, Raise(a + 1)) && t.queues[a] != []
  {
    t := StagedAdvance(cfg, s0, s, events, a, b, Raise(a));
    for n := 0 to |events|
      invariant Leads(cfg, s0, t) && Staged(cfg, t, events, a, b, Pass(a, n))
      invariant Count(events[..n], a) > 0 ==> t.queues[a] != []
      invariant cfg.strategy.Block? ==> |t.queues[a]| == Count(events[..n], a)
    {
      CountNext(events, n, a);
      CountGrows(events, n + 1, a);
      t := StagedAdvance(cfg, s0, t, events, a, b, Pass(a, n));
      if Level(events[n]) == a {
        t := StagedEnqueue(cfg, s0, t, events, a, b, n);
      }
    }
    assert events[..|events|] == events;
    HeldIsCounted(events, a);
    t := StagedAdvance(cfg, s0, t, events, a, b, Pass(a, |events|));
  }

  // The first event of the next level is written.
  lemma StagedSecond(cfg: Config, s0: State, s: State, events: seq<Event>, a: nat, b: nat) returns (t: State)
    requires Leads(cfg, s0, s) && Staged(cfg, s, events, a, b, Raise(b)) && a < b && s.queues[a] != []
        && Holds(events, b)
    ensures Leads(cfg, s0, t) && Lengths(t) && t.disp == Scan(LEVELS, b) && t.closer.Idle? && t.log == []
        && t.ceiling == b + 1
    ensures t.queues[a] == s.queues[a] && (forall l :: 0 <= l < a ==> t.queues[l] == [])
    ensures t.queues[b] != [] && t.queues[b][0].call == 0 && Level(t.queues[b][0].event) == b
  {
    t := StagedAdvance(cfg, s0, s, events, a, b, Raise(b));
    var n := 0;
    while Level(events[n]) != b
      invariant n < |events| && (forall p :: 0 <= p < n ==> Level(events[p]) != b)
      invariant Leads(cfg, s0, t) && Staged(cfg, t, events, a, b, Pass(b, n)) && t.queues == s.queues
          && t.ceiling == b + 1
      decreases |events| - n
    {
      t := StagedAdvance(cfg, s0, t, events, a, b, Pass(b, n));
      n := n + 1;
    }
    t := StagedAdvance(cfg, s0, t, events, a, b, Pass(b, n));
    var u := PublisherStep(cfg, t).value;
    LeadsVia(cfg, s0, t, PublisherMoves);
    assert u == Accept(t);
    t := u;
  }

  // The scan serves queue b, the next one serves queue a.
  lemma StagedServe(cfg: Config, s0: State, s: State, a: nat, b: nat) returns (t: State)
    requires Leads(cfg, s0, s) && Lengths(s) && a < b < LEVELS && s.disp == Scan(LEVELS, b) && s.closer.Idle?
        && s.ceiling == b + 1
    requires s.queues[a] != [] && s.queues[b] != [] && forall l :: 0 <= l < a ==> s.queues[l] == []
    ensures Leads(cfg, s0, t) && t.disp.CheckStop? && t.log == s.log + [s.queues[b][0], s.queues[a][0]]
  {
    var v := DispatcherStep(s).value;
    LeadsVia(cfg, s0, s, DispatcherMoves);
    assert v == Serve(s, b).(disp := CheckStop);
    t := DispatcherStep(v).value;
    LeadsVia(cfg, s0, v, DispatcherMoves);
    v := DispatcherStep(t).value;
    LeadsVia(cfg, s0, t, DispatcherMoves);
    t := v;
    for k := 0 to a
      invariant Leads(cfg, s0, t) && t == v.(disp := Scan(b + 1, k))
    {
      LeadsVia(cfg, s0, t, DispatcherMoves);
      t := DispatcherStep(t).value;
    }
    LeadsVia(cfg, s0, t, DispatcherMoves);
    t := DispatcherStep(t).value;
  }

  // The dispatcher, idle from the start, inspects empty queues up to queue b.
  lemma ScanTo(cfg: Config, b: nat) returns (s: State)
    requires b < LEVELS
    ensures Reachable(cfg, s) && s == Init().(disp := Scan(LEVELS, b))
  {
    LeadsSelf(cfg, Init());
    s := Advances(cfg, Init(), DispatcherMoves);
    s := Advances(cfg, s, DispatcherMoves);
    for k := 0 to b
      invariant Reachable(cfg, s) && s == Init().(disp := Scan(LEVELS, k))
    {
      s := Advances(cfg, s, DispatcherMoves);
    }
  }

  lemma ExposedInverts(cfg: Config, events: seq<Event>, a: nat, b: nat)
    requires TopTwo(events, a, b) && (cfg.strategy.Block? ==> Count(events, a) <= cfg.Capacity())
    ensures CanInvert(cfg, events)
  {
    var s := ScanTo(cfg, b);
    var s0 := Do(cfg, s, Acquire(true, events)).value;
    LeadsSelf(cfg, s0);
    var t := StagedAdvance(cfg, s0, s0, events, a, b, CheckClosing);
    t := StagedSkips(cfg, s0, t, events, a, b, 0, a);
    t := StagedPass(cfg, s0, t, events, a, b);
    t := StagedSkips(cfg, s0, t, events, a, b, a + 1, b);
    var x := t.queues[a][0];
    t := StagedSecond(cfg, s0, t, events, a, b);
    var y := t.queues[b][0];
    t := StagedServe(cfg, s0, t, a, b);
    assert t.log[0] == y && t.log[1] == x && !Precedes(y, x);
    assert Started(cfg, s, events, t) && Inverted(t, s.nextCall);
  }

  // ---------- the exact condition ----------

  lemma TwoLevels(events: seq<Event>, p: nat, q: nat) returns (a: nat, b: nat)
    requires p < |events| && q < |events| && Level(events[p]) != Level(events[q])
    ensures TopTwo(events, a, b)
  {
    a := 0;
    while !Holds(events, a)
      invariant a <= Level(events[p]) && forall l :: 0 <= l < a ==> !Holds(events, l)
      decreases LEVELS - a
    {
      assert Holds(events, Level(events[p]));
      a := a + 1;
    }
    var other := if Level(events[p]) == a then Level(events[q]) else Level(events[p]);
    assert Holds(events, Level(events[p])) && Holds(events, Level(events[q]));
    b := a + 1;
    while !Holds(events, b)
      invariant a < b <= other && forall l :: 0 <= l < b && l != a ==> !Holds(events, l)
      decreases LEVELS - b
    {
      b := b + 1;
    }
    forall r | 0 <= r < |events|
      ensures Level(events[r]) == a || b <= Level(events[r])
    {
      assert Holds(events, Level(events[r]));
    }
  }

  /** A call outside the condition is never delivered out of order. */
  lemma UnexposedInOrder(cfg: Config, events: seq<Event>, s: State, t: State)
    requires !Exposed(cfg, events) && Started(cfg, s, events, t)
    ensures !Inverted(t, s.nextCall)
  {
    var u, c := Do(cfg, s, Acquire(true, events)).value, s.nextCall;
    var steps :| Run(cfg, u, steps) == Some(t);
    StartedIsKnown(cfg, s, events);
    if p, q :| 0 <= p < |events| && 0 <= q < |events| && Level(events[p]) != Level(events[q]) {
      var a, b := TwoLevels(events, p, q);
      assert Overflows(cfg, events, a);
      PhasesRun(cfg, u, c, events, a, steps);
      PhasesInOrder(cfg, t, c, a);
    } else {
      KnownRun(cfg, u, c, events, steps);
      OneLevelInOrder(cfg, t, c, events);
    }
  }

  /**
   For every configuration and every argument list: some PublishBatch call with that list is delivered out of
   order if and only if the list spans two levels and, under Block, its most urgent events fit an empty queue.
  */
  lemma BatchCanInvertIff(cfg: Config, events: seq<Event>)
    ensures CanInvert(cfg, events) <==> Exposed(cfg, events)
  {
    if Exposed(cfg, events) {
      var a, b :| TopTwo(events, a, b) && (cfg.strategy.Block? ==> Count(events, a) <= cfg.Capacity());
      ExposedInverts(cfg, events, a, b);
    } else {
      forall s, t | Started(cfg, s, events, t)
        ensures !Inverted(t, s.nextCall)
      {
        UnexposedInOrder(cfg, events, s, t);
      }
    }
  }
}
