/**
 What every step of the bus keeps: the shape of the program counters, the conservation of
 events, and the record of what each publishing call has done so far.
*/
module EventBusInvariants {
  import opened Options
  import opened EventBusModel

  // ---------- shape ----------

  /** The ceiling a lock holder has in force. */
  function CeilingOf(h: Holder): nat {
    if h.Publisher? && h.batch then
      match h.pc
      case Raise(i) => i
      case Pass(i, _) => i + 1
      case Enqueue(i, _, _, _) => i + 1
      case _ => 0
    else 0
  }

  predicate PcShape(cfg: Config, h: Holder)
    requires h.Publisher?
  {
    && (if h.batch then h.events != [] else |h.events| == 1)
    && match h.pc
       case CheckClosing => !h.wrote
       case Raise(i) => h.batch && i <= LEVELS
       case Pass(i, n) => h.batch && i < LEVELS && n <= |h.events|
       case Enqueue(i, n, phase, evicted) =>
         && i < LEVELS && n < |h.events| && Level(h.events[n]) == i
         && (phase.Poke? || phase.BlockedSend? ==> cfg.strategy.Block?)
         && (phase.EvictSelect? || evicted ==> cfg.strategy.DropOldest?)
       case Unlock => true
  }

  predicate PastGate(c: CloserPc) {
    c.HoldGate? || c.AwaitWorker? || c.FinalDrain? || c.Closed?
  }

  predicate Lengths(s: State) {
    |s.queues| == |s.accepted| == |s.removed| == LEVELS
  }

  predicate HolderShape(cfg: Config, h: Holder, nextCall: nat) {
    h.Publisher? ==> PcShape(cfg, h) && h.call + 1 == nextCall
  }

  predicate QueueShape(cfg: Config, queues: seq<seq<Entry>>) {
    |queues| == LEVELS && forall l :: 0 <= l < LEVELS ==> |queues[l]| <= cfg.Capacity()
  }

  predicate DispShape(d: DispPc) {
    (d.Scan? ==> d.k < d.limit <= LEVELS) && (d.Drain? ==> d.k <= LEVELS)
  }

  /** Close lets no publisher past the closing check once it holds the gate, and waits for the dispatcher. */
  predicate CloserShape(h: Holder, d: DispPc, c: CloserPc) {
    && (h.Gate? <==> c.HoldGate?)
    && (PastGate(c) && h.Publisher? ==> h.pc.CheckClosing?)
    && (c.FinalDrain? ==> c.k <= LEVELS)
    && (c.FinalDrain? || c.Closed? ==> d.Exited?)
    && (d.Drain? || d.Exited? ==> !c.Idle? && !c.CloseStop?)
  }

  ghost predicate Shape(cfg: Config, s: State) {
    && Lengths(s)
    && QueueShape(cfg, s.queues)
    && HolderShape(cfg, s.holder, s.nextCall)
    && s.ceiling == CeilingOf(s.holder)
    && DispShape(s.disp)
    && CloserShape(s.holder, s.disp, s.closer)
  }

  // What each actor's step can touch.

  lemma EnqueueFrame(cfg: Config, s: State)
    requires EnqueueStep(cfg, s).Some?
    ensures var s' := EnqueueStep(cfg, s).value;
            s' == s.(queues := s'.queues, token := s'.token, holder := s'.holder,
                     accepted := s'.accepted, removed := s'.removed, shed := s'.shed)
  {
  }

  lemma DispatcherFrame(s: State)
    requires DispatcherStep(s).Some?
    ensures var s' := DispatcherStep(s).value;
            s' == s.(queues := s'.queues, removed := s'.removed, log := s'.log, disp := s'.disp, token := s'.token)
  {
  }

  lemma CloserFrame(s: State)
    requires CloserStep(s).Some?
    ensures var s' := CloserStep(s).value;
            s' == s.(queues := s'.queues, removed := s'.removed, log := s'.log, holder := s'.holder,
                closer := s'.closer)
  {
  }

  lemma EnqueueQueues(cfg: Config, s: State)
    requires Lengths(s) && QueueShape(cfg, s.queues) && EnqueueStep(cfg, s).Some?
    ensures Lengths(EnqueueStep(cfg, s).value) && QueueShape(cfg, EnqueueStep(cfg, s).value.queues)
  {
  }

  lemma EnqueueHolder(cfg: Config, s: State)
    requires HolderShape(cfg, s.holder, s.nextCall) && EnqueueStep(cfg, s).Some?
    ensures var h := EnqueueStep(cfg, s).value.holder;
            && h.Publisher? && HolderShape(cfg, h, s.nextCall)
            && CeilingOf(h) == CeilingOf(s.holder)
  {
    var h := EnqueueStep(cfg, s).value.holder;
    assert h == s.holder.(pc := h.pc, wrote := h.wrote);
    assert h.pc == AfterEvent(s.holder) || (h.pc.Enqueue? && h.pc.i == s.holder.pc.i && h.pc.n == s.holder.pc.n);
  }

  lemma PublisherHolder(cfg: Config, h: Holder, closing: bool)
    requires h.Publisher? && PcShape(cfg, h) && !h.pc.Enqueue?
    ensures var h' := Advance(h, closing);
            && (h'.Publisher? ==> PcShape(cfg, h') && h'.call == h.call)
            && CeilingOf(h') == if h.pc.Raise? then (if h.pc.i < LEVELS then h.pc.i + 1 else 0) else CeilingOf(h)
  {
  }

  lemma ShapePublisher(cfg: Config, s: State)
    requires Shape(cfg, s) && PublisherStep(cfg, s).Some?
    ensures Shape(cfg, PublisherStep(cfg, s).value)
  {
    if s.holder.pc.Enqueue? {
      EnqueueFrame(cfg, s);
      EnqueueQueues(cfg, s);
      EnqueueHolder(cfg, s);
    } else {
      PublisherHolder(cfg, s.holder, s.Closing());
    }
  }

  lemma ServeQueues(cfg: Config, s: State, k: nat)
    requires Lengths(s) && QueueShape(cfg, s.queues) && k < LEVELS && s.queues[k] != []
    ensures Lengths(Serve(s, k)) && QueueShape(cfg, Serve(s, k).queues)
  {
  }

  lemma DispatcherPc(s: State)
    requires DispShape(s.disp) && s.ceiling <= LEVELS && DispatcherStep(s).Some?
    requires CloserShape(s.holder, s.disp, s.closer)
    ensures var s' := DispatcherStep(s).value;
            DispShape(s'.disp) && CloserShape(s.holder, s'.disp, s.closer)
  {
  }

  lemma ShapeDispatcher(cfg: Config, s: State)
    requires Shape(cfg, s) && DispatcherStep(s).Some?
    ensures Shape(cfg, DispatcherStep(s).value)
  {
    DispatcherFrame(s);
    DispatcherPc(s);
    if (s.disp.Scan? || s.disp.Drain?) && s.disp.k < LEVELS && s.queues[s.disp.k] != [] {
      ServeQueues(cfg, s, s.disp.k);
    }
  }

  lemma CloserPcs(s: State)
    requires CloserShape(s.holder, s.disp, s.closer) && CloserStep(s).Some?
    ensures var s' := CloserStep(s).value;
            CloserShape(s'.holder, s'.disp, s'.closer)
  {
  }

  lemma CloserHolder(cfg: Config, s: State)
    requires CloserShape(s.holder, s.disp, s.closer) && CloserStep(s).Some?
    requires HolderShape(cfg, s.holder, s.nextCall)
    ensures var s' := CloserStep(s).value;
            HolderShape(cfg, s'.holder, s.nextCall) && CeilingOf(s'.holder) == CeilingOf(s.holder)
  {
  }

  lemma ShapeCloser(cfg: Config, s: State)
    requires Shape(cfg, s) && CloserStep(s).Some?
    ensures Shape(cfg, CloserStep(s).value)
  {
    CloserFrame(s);
    CloserPcs(s);
    CloserHolder(cfg, s);
    if s.closer.FinalDrain? && s.closer.k < LEVELS && s.queues[s.closer.k] != [] {
      ServeQueues(cfg, s, s.closer.k);
    }
  }

  lemma ShapeStep(cfg: Config, s: State, step: Step)
    requires Shape(cfg, s) && Do(cfg, s, step).Some?
    ensures Shape(cfg, Do(cfg, s, step).value)
  {
    match step
    case PublisherMoves => ShapePublisher(cfg, s);
    case DispatcherMoves => ShapeDispatcher(cfg, s);
    case CloserMoves => ShapeCloser(cfg, s);
    case PublisherStops =>
    case Signal =>
    case DispatcherStops =>
    case Acquire(_, _) =>
  }

  // ---------- conservation ----------

  function Entries(rs: seq<Removal>): (es: seq<Entry>)
    ensures |es| == |rs| && forall i :: 0 <= i < |rs| ==> es[i] == rs[i].entry
  {
    seq(|rs|, i requires 0 <= i < |rs| => rs[i].entry)
  }

  /** The removals that reached the handlers, in order. */
  function Delivered(rs: seq<Removal>): seq<Entry> {
    if rs == [] then []
    else Delivered(rs[..|rs| - 1]) + (if rs[|rs| - 1].evicted then [] else [rs[|rs| - 1].entry])
  }

  function OfLevel(xs: seq<Entry>, l: nat): seq<Entry> {
    if xs == [] then []
    else OfLevel(xs[..|xs| - 1], l) + (if Level(xs[|xs| - 1].event) == l then [xs[|xs| - 1]] else [])
  }

  /** Accepted = removed followed by queued, and the handlers saw exactly the removals that were not evictions. */
  ghost predicate ConservedAt(s: State, l: nat)
    requires Lengths(s) && l < LEVELS
  {
    && s.accepted[l] == Entries(s.removed[l]) + s.queues[l]
    && OfLevel(s.log, l) == Delivered(s.removed[l])
  }

  ghost predicate Conserved(s: State)
    requires Lengths(s)
  {
    forall l :: 0 <= l < LEVELS ==> ConservedAt(s, l)
  }

  // ---------- what the calls have done ----------

  /** The lock holder is past position pos of level l in its enqueue order. */
  predicate Passed(h: Holder, l: nat, pos: nat)
    requires h.Publisher?
  {
    match h.pc
    case CheckClosing => false
    case Raise(i) => l < i
    case Pass(i, n) => l < i || (l == i && pos < n)
    case Enqueue(i, n, _, _) => l < i || (l == i && pos < n)
    case Unlock => true
  }

  predicate Earlier(x: Entry, y: Entry) {
    x.call < y.call || (x.call == y.call && x.pos < y.pos)
  }

  ghost predicate Attributed(s: State, l: nat, x: Entry) {
    && Level(x.event) == l && x.call < s.nextCall
    && (s.holder.Publisher? && x.call == s.holder.call ==> Passed(s.holder, l, x.pos))
  }

  /** Each queue is written in call order, and inside a call in argument order; nothing is written twice. */
  ghost predicate InCallOrder(s: State)
    requires Lengths(s)
  {
    && (forall l, i :: 0 <= l < LEVELS && 0 <= i < |s.accepted[l]| ==> Attributed(s, l, s.accepted[l][i]))
    && (forall l, i, j :: 0 <= l < LEVELS && 0 <= i < j < |s.accepted[l]| ==>
        Earlier(s.accepted[l][i], s.accepted[l][j]))
  }

  /** Event p of the holder's call was accepted by its queue or given up on. */
  ghost predicate Settled(s: State, p: nat)
    requires Lengths(s) && s.holder.Publisher? && p < |s.holder.events|
  {
    var x := Entry(s.holder.events[p], s.holder.call, p);
    x in s.accepted[Level(x.event)] || x in s.shed
  }

  /** Everything behind the holder's cursor is settled. */
  ghost predicate Accounted(s: State)
    requires Lengths(s)
  {
    s.holder.Publisher? ==>
      forall p :: 0 <= p < |s.holder.events| && Passed(s.holder, Level(s.holder.events[p]), p) ==> Settled(s, p)
  }

  // ---------- the inductive invariant ----------

  ghost predicate Inv(cfg: Config, s: State) {
    Shape(cfg, s) && Conserved(s) && InCallOrder(s) && Accounted(s)
  }

  lemma InitInv(cfg: Config)
    ensures Inv(cfg, Init())
  {
  }

  lemma DeliveredSnoc(rs: seq<Removal>, r: Removal)
    ensures Delivered(rs + [r]) == Delivered(rs) + (if r.evicted then [] else [r.entry])
    ensures Entries(rs + [r]) == Entries(rs) + [r.entry]
  {
    assert (rs + [r])[..|rs|] == rs;
  }

  lemma OfLevelSnoc(xs: seq<Entry>, x: Entry, l: nat)
    ensures OfLevel(xs + [x], l) == OfLevel(xs, l) + (if Level(x.event) == l then [x] else [])
  {
    assert (xs + [x])[..|xs|] == xs;
  }

  // The head of a queue moves to the end of what was removed.
  lemma HeadMoves(accepted: seq<Entry>, rs: seq<Removal>, q: seq<Entry>, evicted: bool)
    requires accepted == Entries(rs) + q && q != []
    ensures accepted == Entries(rs + [Removal(q[0], evicted)]) + q[1..]
  {
    DeliveredSnoc(rs, Removal(q[0], evicted));
    assert q == [q[0]] + q[1..];
  }

  // The head of a queue belongs to its level.
  lemma HeadLevel(s: State, k: nat)
    requires Lengths(s) && k < LEVELS && ConservedAt(s, k) && InCallOrder(s) && s.queues[k] != []
    ensures Level(s.queues[k][0].event) == k
  {
    assert s.accepted[k][|s.removed[k]|] == s.queues[k][0];
  }

  // The queue served.
  lemma ServeConservesHere(s: State, k: nat)
    requires Lengths(s) && k < LEVELS && ConservedAt(s, k) && InCallOrder(s) && s.queues[k] != []
    ensures ConservedAt(Serve(s, k), k)
  {
    var x := s.queues[k][0];
    HeadLevel(s, k);
    HeadMoves(s.accepted[k], s.removed[k], s.queues[k], false);
    DeliveredSnoc(s.removed[k], Removal(x, false));
    OfLevelSnoc(s.log, x, k);
  }

  // Any other queue.
  lemma ServeConservesThere(s: State, k: nat, l: nat)
    requires Lengths(s) && k < LEVELS && l < LEVELS && l != k && s.queues[k] != []
    requires ConservedAt(s, k) && ConservedAt(s, l) && InCallOrder(s)
    ensures ConservedAt(Serve(s, k), l)
  {
    HeadLevel(s, k);
    OfLevelSnoc(s.log, s.queues[k][0], l);
  }

  lemma ServeConserves(s: State, k: nat)
    requires Lengths(s) && Conserved(s) && InCallOrder(s) && k < LEVELS && s.queues[k] != []
    ensures Conserved(Serve(s, k))
  {
    forall l | 0 <= l < LEVELS
      ensures ConservedAt(Serve(s, k), l)
    {
      if l == k {
        ServeConservesHere(s, k);
      } else {
        ServeConservesThere(s, k, l);
      }
    }
  }

  lemma AcceptConserves(s: State)
    requires Ready(s) && Conserved(s)
    ensures Conserved(Accept(s))
  {
    var s' := Accept(s);
    forall l | 0 <= l < LEVELS
      ensures ConservedAt(s', l)
    {
      assert ConservedAt(s, l);
    }
  }

  lemma EvictConserves(s: State)
    requires Ready(s) && Conserved(s) && s.queues[s.holder.pc.i] != []
    ensures Conserved(Evict(s))
  {
    var i, s' := s.holder.pc.i, Evict(s);
    DeliveredSnoc(s.removed[i], Removal(s.queues[i][0], true));
    forall l | 0 <= l < LEVELS
      ensures ConservedAt(s', l)
    {
      assert ConservedAt(s, l);
      assert l == i ==> s.queues[i] == [s.queues[i][0]] + s.queues[i][1..];
    }
  }

  // ---------- the five effects a step can have on the data ----------

  predicate SameData(s: State, s': State) {
    && s'.queues == s.queues && s'.accepted == s.accepted && s'.removed == s.removed
    && s'.log == s.log && s'.shed == s.shed
  }

  /** s' differs from s by the receive of the head of queue k, which goes to the handlers. */
  predicate Serves(s: State, s': State, k: nat)
    requires Lengths(s)
  {
    k < LEVELS && s.queues[k] != [] && s' == Serve(s, k).(disp := s'.disp, closer := s'.closer)
  }

  predicate SameCall(h: Holder, h': Holder) {
    h.Publisher? && h'.Publisher? && h'.call == h.call && h'.events == h.events
  }

  lemma EnqueueEffect(cfg: Config, s: State)
    requires Shape(cfg, s) && EnqueueStep(cfg, s).Some?
    ensures var s' := EnqueueStep(cfg, s).value;
            || s' == Accept(s) || s' == GiveUp(s) || (s.queues[s.holder.pc.i] != [] && s' == Evict(s))
            || (SameData(s, s') && s' == SetPhase(s, s'.holder.pc.phase).(token := s'.token))
  {
  }

  lemma DispatcherEffect(s: State)
    requires Lengths(s) && DispShape(s.disp) && DispatcherStep(s).Some?
    ensures var s' := DispatcherStep(s).value;
            || SameData(s, s')
            || ((s.disp.Scan? || s.disp.Drain?) && Serves(s, s', s.disp.k))
  {
  }

  lemma CloserEffect(s: State)
    requires Lengths(s) && CloserStep(s).Some?
    ensures var s' := CloserStep(s).value;
            SameData(s, s') || (s.closer.FinalDrain? && Serves(s, s', s.closer.k))
  {
  }

  /** Moving on changes which events are behind the cursor only where the call has no event. */
  lemma AdvancePassed(cfg: Config, h: Holder, closing: bool, l: nat, p: nat)
    requires h.Publisher? && !h.pc.Enqueue? && PcShape(cfg, h) && Advance(h, closing).Publisher?
    ensures Passed(h, l, p) ==> Passed(Advance(h, closing), l, p)
    ensures p < |h.events| && l == Level(h.events[p]) && Passed(Advance(h, closing), l, p) ==> Passed(h, l, p)
  {
  }

  /** A step that leaves the data alone keeps the records about it. */
  lemma KeepsRecords(cfg: Config, s: State, s': State)
    requires Inv(cfg, s) && Shape(cfg, s') && SameData(s, s') && s.nextCall <= s'.nextCall
    requires s'.holder.Publisher? ==>
      || (s'.holder.call == s.nextCall && s'.holder.pc.CheckClosing?)
      || (SameCall(s.holder, s'.holder) && forall l: nat, p: nat ::
            && (Passed(s.holder, l, p) ==> Passed(s'.holder, l, p))
            && (p < |s.holder.events| && l == Level(s.holder.events[p]) && Passed(s'.holder, l, p) ==>
                Passed(s.holder, l, p)))
    ensures Inv(cfg, s')
  {
    forall l | 0 <= l < LEVELS
      ensures ConservedAt(s', l)
    {
      assert ConservedAt(s, l);
    }
    forall l, i | 0 <= l < LEVELS && 0 <= i < |s'.accepted[l]|
      ensures Attributed(s', l, s'.accepted[l][i])
    {
      assert Attributed(s, l, s.accepted[l][i]);
    }
    if s'.holder.Publisher? && SameCall(s.holder, s'.holder) {
      forall p | 0 <= p < |s'.holder.events| && Passed(s'.holder, Level(s'.holder.events[p]), p)
        ensures Settled(s', p)
      {
        assert Settled(s, p);
      }
    }
  }

  lemma ServeKeeps(cfg: Config, s: State, s': State, k: nat)
    requires Inv(cfg, s) && Shape(cfg, s') && Serves(s, s', k)
    ensures Inv(cfg, s')
  {
    ServeConserves(s, k);
    forall l | 0 <= l < LEVELS
      ensures ConservedAt(s', l)
    {
      assert ConservedAt(Serve(s, k), l);
    }
    forall l, i | 0 <= l < LEVELS && 0 <= i < |s'.accepted[l]|
      ensures Attributed(s', l, s'.accepted[l][i])
    {
      assert Attributed(s, l, s.accepted[l][i]);
    }
    if s'.holder.Publisher? {
      forall p | 0 <= p < |s'.holder.events| && Passed(s'.holder, Level(s'.holder.events[p]), p)
        ensures Settled(s', p)
      {
        assert Settled(s, p);
      }
    }
  }

  /** After event n is dealt with, exactly that event joins the ones behind the cursor. */
  lemma AfterEventPassed(cfg: Config, h: Holder, l: nat, p: nat)
    requires h.Publisher? && h.pc.Enqueue? && PcShape(cfg, h)
    ensures Passed(h, l, p) ==> Passed(h.(pc := AfterEvent(h)), l, p)
    ensures Passed(h.(pc := AfterEvent(h)), h.pc.i, h.pc.n)
    ensures p < |h.events| && l == Level(h.events[p]) && Passed(h.(pc := AfterEvent(h)), l, p)
            ==> Passed(h, l, p) || p == h.pc.n
  {
  }

  lemma AcceptInOrder(cfg: Config, s: State)
    requires Inv(cfg, s) && Ready(s)
    ensures InCallOrder(Accept(s))
  {
    var s', x := Accept(s), Current(s.holder);
    forall l, i | 0 <= l < LEVELS && 0 <= i < |s'.accepted[l]|
      ensures Attributed(s', l, s'.accepted[l][i])
    {
      AfterEventPassed(cfg, s.holder, l, s'.accepted[l][i].pos);
      if i < |s.accepted[l]| {
        assert Attributed(s, l, s.accepted[l][i]);
      }
    }
    forall l, i, j | 0 <= l < LEVELS && 0 <= i < j < |s'.accepted[l]|
      ensures Earlier(s'.accepted[l][i], s'.accepted[l][j])
    {
      assert Attributed(s, l, s.accepted[l][i]);
    }
  }

  /** Accepting or giving up settles the event and moves on. */
  lemma SettlesCurrent(cfg: Config, s: State, s': State)
    requires Inv(cfg, s) && Ready(s) && (s' == Accept(s) || s' == GiveUp(s))
    ensures Accounted(s')
  {
    forall p | 0 <= p < |s'.holder.events| && Passed(s'.holder, Level(s'.holder.events[p]), p)
      ensures Settled(s', p)
    {
      AfterEventPassed(cfg, s.holder, Level(s.holder.events[p]), p);
      if p == s.holder.pc.n {
        assert Entry(s.holder.events[p], s.holder.call, p) == Current(s.holder);
      } else {
        assert Settled(s, p);
      }
    }
  }

  lemma GiveUpKeeps(cfg: Config, s: State)
    requires Inv(cfg, s) && Ready(s) && Shape(cfg, GiveUp(s))
    ensures Inv(cfg, GiveUp(s))
  {
    var s' := GiveUp(s);
    SettlesCurrent(cfg, s, s');
    forall l | 0 <= l < LEVELS
      ensures ConservedAt(s', l)
    {
      assert ConservedAt(s, l);
    }
    forall l, i | 0 <= l < LEVELS && 0 <= i < |s'.accepted[l]|
      ensures Attributed(s', l, s'.accepted[l][i])
    {
      assert Attributed(s, l, s.accepted[l][i]);
      AfterEventPassed(cfg, s.holder, l, s.accepted[l][i].pos);
    }
  }

  lemma EvictKeeps(cfg: Config, s: State)
    requires Inv(cfg, s) && Ready(s) && s.queues[s.holder.pc.i] != [] && Shape(cfg, Evict(s))
    ensures Inv(cfg, Evict(s))
  {
    var s' := Evict(s);
    EvictConserves(s);
    forall l, i | 0 <= l < LEVELS && 0 <= i < |s'.accepted[l]|
      ensures Attributed(s', l, s'.accepted[l][i])
    {
      assert Attributed(s, l, s.accepted[l][i]);
    }
    forall p | 0 <= p < |s'.holder.events| && Passed(s'.holder, Level(s'.holder.events[p]), p)
      ensures Settled(s', p)
    {
      assert Settled(s, p);
    }
  }

  lemma InvEnqueue(cfg: Config, s: State)
    requires Inv(cfg, s) && EnqueueStep(cfg, s).Some? && Shape(cfg, EnqueueStep(cfg, s).value)
    ensures Inv(cfg, EnqueueStep(cfg, s).value)
  {
    var s' := EnqueueStep(cfg, s).value;
    EnqueueEffect(cfg, s);
    if s' == Accept(s) {
      AcceptConserves(s);
      AcceptInOrder(cfg, s);
      SettlesCurrent(cfg, s, s');
    } else if s' == GiveUp(s) {
      GiveUpKeeps(cfg, s);
    } else if s.queues[s.holder.pc.i] != [] && s' == Evict(s) {
      EvictKeeps(cfg, s);
    } else {
      KeepsRecords(cfg, s, s');
    }
  }

  lemma InvPublisher(cfg: Config, s: State)
    requires Inv(cfg, s) && PublisherStep(cfg, s).Some?
    ensures Inv(cfg, PublisherStep(cfg, s).value)
  {
    var s' := PublisherStep(cfg, s).value;
    ShapePublisher(cfg, s);
    if s.holder.pc.Enqueue? {
      InvEnqueue(cfg, s);
    } else {
      if s'.holder.Publisher? {
        forall l: nat, p: nat
          ensures Passed(s.holder, l, p) ==> Passed(s'.holder, l, p)
          ensures p < |s.holder.events| && l == Level(s.holder.events[p]) && Passed(s'.holder, l, p) ==>
              Passed(s.holder, l, p)
        {
          AdvancePassed(cfg, s.holder, s.Closing(), l, p);
        }
      }
      KeepsRecords(cfg, s, s');
    }
  }

  /** Every step keeps the invariant. */
  lemma InvStep(cfg: Config, s: State, step: Step)
    requires Inv(cfg, s) && Do(cfg, s, step).Some?
    ensures Inv(cfg, Do(cfg, s, step).value)
  {
    var s' := Do(cfg, s, step).value;
    ShapeStep(cfg, s, step);
    match step
    case PublisherMoves => InvPublisher(cfg, s);
    case DispatcherMoves =>
      DispatcherFrame(s);
      DispatcherEffect(s);
      if SameData(s, s') {
        KeepsRecords(cfg, s, s');
      } else {
        ServeKeeps(cfg, s, s', s.disp.k);
      }
    case CloserMoves =>
      CloserFrame(s);
      CloserEffect(s);
      if SameData(s, s') {
        KeepsRecords(cfg, s, s');
      } else {
        ServeKeeps(cfg, s, s', s.closer.k);
      }
    case PublisherStops => GiveUpKeeps(cfg, s);
    case Signal => KeepsRecords(cfg, s, s');
    case DispatcherStops => KeepsRecords(cfg, s, s');
    case Acquire(_, _) => KeepsRecords(cfg, s, s');
  }

  lemma {:induction false} InvRun(cfg: Config, s: State, steps: seq<Step>)
    requires Inv(cfg, s) && Run(cfg, s, steps).Some?
    ensures Inv(cfg, Run(cfg, s, steps).value)
    decreases |steps|
  {
    if steps != [] {
      InvStep(cfg, s, steps[0]);
      InvRun(cfg, Do(cfg, s, steps[0]).value, steps[1..]);
    }
  }

  /** Every reachable state satisfies the invariant. */
  lemma ReachableInv(cfg: Config, s: State)
    requires Reachable(cfg, s)
    ensures Inv(cfg, s)
  {
    var steps :| Run(cfg, Init(), steps) == Some(s);
    InitInv(cfg);
    InvRun(cfg, Init(), steps);
  }
}
