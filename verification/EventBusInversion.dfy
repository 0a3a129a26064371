/**
 Out-of-order delivery: a calm batch never suffers it, and two runs show how a batch that is not calm can. In
 one the scan loaded no ceiling, in the other it loaded the ceiling of an earlier batch. Which calls can be hit
 at all is settled in EventBusCallOrder.
*/
module EventBusInversion {
  import opened Options
  import opened EventBusModel
  import opened EventBusInvariants
  import opened EventBusOrder

  /** Before any shutdown drain, the handlers saw two events of call b in the wrong order. */
  ghost predicate Inverted(s: State, b: nat) {
    && !s.Draining()
    && exists i, j :: 0 <= i < j < |s.log| && s.log[i].call == b && s.log[j].call == b && !Precedes(s.log[i], s.log[j])
  }

  /** A batch of two events, the first for the most urgent queue, is about to raise its first ceiling. */
  predicate AboutToRaise(s: State, first: Event, second: Event) {
    && Lengths(s) && !s.Closing()
    && s.holder.Publisher? && s.holder.batch && s.holder.events == [first, second] && s.holder.pc == Raise(0)
    && Level(first) == 0 && Level(second) == (if s.disp.Scan? && s.disp.k > 1 then s.disp.k else 1)
    && forall l :: 0 <= l <= Level(second) ==> s.queues[l] == []
  }

  // Whatever a step does, a calm batch stays calm.
  lemma {:induction false} CalmGrows(cfg: Config, s: State, steps: seq<Step>)
    requires Run(cfg, s, steps).Some?
    ensures s.calm <= Run(cfg, s, steps).value.calm
    decreases |steps|
  {
    if steps != [] {
      var s' := Do(cfg, s, steps[0]).value;
      assert s.calm <= s'.calm by {
        if steps[0].DispatcherMoves? {
          DispatcherFrame(s);
        } else if steps[0].CloserMoves? {
          CloserFrame(s);
        } else if steps[0].PublisherMoves? && s.holder.pc.Enqueue? {
          EnqueueFrame(cfg, s);
        }
      }
      CalmGrows(cfg, s', steps[1..]);
    }
  }

  lemma CalmNeverInverts(cfg: Config, s: State, b: nat, t: State)
    requires Reachable(cfg, s) && b in s.calm && Leads(cfg, s, t)
    ensures !Inverted(t, b)
  {
    var steps :| Run(cfg, s, steps) == Some(t);
    CalmGrows(cfg, s, steps);
    LeadsOn(cfg, Init(), s, t);
    forall i, j | 0 <= i < j < |t.log| && t.log[i].call == b && t.log[j].call == b && !t.Draining()
      ensures Precedes(t.log[i], t.log[j])
    {
      CalmBatchDeliveredInOrder(cfg, t, b, i, j);
    }
  }

  // ---------- the inverting run ----------

  // The publisher writes its first event and moves on to the next pass.
  lemma WriteFirst(cfg: Config, s: State, first: Event, second: Event) returns (u: State)
    requires s.holder.Publisher? && s.holder.batch && s.holder.events == [first, second] && s.holder.pc == Pass(0, 0)
    requires Level(first) == 0 && Level(second) != 0 && Lengths(s) && s.queues[0] == []
    ensures Leads(cfg, s, u)
    ensures var x := Entry(first, s.holder.call, 0);
            u == s.(queues := s.queues[0 := [x]], accepted := s.accepted[0 := s.accepted[0] + [x]],
                    holder := s.holder.(pc := Raise(1), wrote := true))
  {
    LeadsSelf(cfg, s);
    var v := PublisherStep(cfg, s).value;
    LeadsVia(cfg, s, s, PublisherMoves);
    u := PublisherStep(cfg, v).value;
    assert u == Accept(v) && s.queues[0] + [Current(v.holder)] == [Current(v.holder)];
    LeadsVia(cfg, s, v, PublisherMoves);
    v := PublisherStep(cfg, u).value;
    LeadsVia(cfg, s, u, PublisherMoves);
    u := PublisherStep(cfg, v).value;
    LeadsVia(cfg, s, v, PublisherMoves);
  }

  // The publisher writes its second event in pass b.
  lemma WriteSecond(cfg: Config, s: State, t: State, b: nat) returns (u: State)
    requires Leads(cfg, s, t) && 0 < b < LEVELS && Lengths(t) && t.queues[b] == []
    requires t.holder.Publisher? && t.holder.batch && |t.holder.events| == 2 && t.holder.pc == Raise(b)
    requires Level(t.holder.events[0]) != b && Level(t.holder.events[1]) == b
    ensures Leads(cfg, s, u) && Lengths(u)
    ensures u.queues == t.queues[b := [Entry(t.holder.events[1], t.holder.call, 1)]]
    ensures u.ceiling == b + 1 && u.disp == t.disp && u.closer == t.closer && u.log == t.log
  {
    var v := PublisherStep(cfg, t).value;
    LeadsVia(cfg, s, t, PublisherMoves);
    u := PublisherStep(cfg, v).value;
    LeadsVia(cfg, s, v, PublisherMoves);
    v := PublisherStep(cfg, u).value;
    LeadsVia(cfg, s, u, PublisherMoves);
    u := PublisherStep(cfg, v).value;
    assert u == Accept(v) && t.queues[b] + [Current(v.holder)] == [Current(v.holder)];
    LeadsVia(cfg, s, v, PublisherMoves);
  }

  // The stale scan serves queue b, the next scan serves queue 0.
  lemma ServeBoth(cfg: Config, s: State, t: State, b: nat) returns (u: State)
    requires Leads(cfg, s, t) && Lengths(t) && 0 < b < LEVELS && t.disp.Scan? && t.disp.k == b && !t.Stopped()
    requires t.queues[0] != [] && t.queues[b] != []
    ensures Leads(cfg, s, u) && u.disp.CheckStop?
    ensures u.log == t.log + [t.queues[b][0], t.queues[0][0]]
  {
    var v := DispatcherStep(t).value;
    assert v == Serve(t, b).(disp := CheckStop);
    LeadsVia(cfg, s, t, DispatcherMoves);
    u := DispatcherStep(v).value;
    LeadsVia(cfg, s, v, DispatcherMoves);
    v := DispatcherStep(u).value;
    LeadsVia(cfg, s, u, DispatcherMoves);
    u := DispatcherStep(v).value;
    assert u == Serve(v, 0).(disp := CheckStop);
    LeadsVia(cfg, s, v, DispatcherMoves);
  }

  // From such a state with a wide scan the two events come out in the wrong order.
  lemma WideScanInverts(cfg: Config, s: State, first: Event, second: Event) returns (t: State)
    requires Inv(cfg, s) && AboutToRaise(s, first, second) && s.WideScan()
    ensures Leads(cfg, PublisherStep(cfg, s).value, t) && Inverted(t, s.holder.call)
  {
    var b := Level(second);
    var s1 := PublisherStep(cfg, s).value;
    t := WriteFirst(cfg, s1, first, second);
    if s.disp.k == 0 {
      // Queue 0 is inspected between the raise and the first write.
      var d := DispatcherStep(s1).value;
      LeadsSelf(cfg, s1);
      LeadsVia(cfg, s1, s1, DispatcherMoves);
      t := WriteFirst(cfg, d, first, second);
      LeadsOn(cfg, s1, d, t);
    }
    assert t.disp == Scan(s.disp.limit, b);
    for i := 1 to b
      invariant Leads(cfg, s1, t) && Lengths(t) && t.disp == Scan(s.disp.limit, b) && t.closer == s.closer
      invariant t.queues == s.queues[0 := [Entry(first, s.holder.call, 0)]] && t.log == s.log
      invariant t.holder == s.holder.(pc := Raise(i), wrote := true)
    {
      t := SkipPass(cfg, s1, t, i);
    }
    t := WriteSecond(cfg, s1, t, b);
    var n := |t.log|;
    t := ServeBoth(cfg, s1, t, b);
    assert t.log[n].call == t.log[n + 1].call == s.holder.call && !Precedes(t.log[n], t.log[n + 1]);
  }

  // ---------- both kinds of wide scan occur ----------

  const URGENT := Event(1, 1, 0, CRITICAL)
  const SOON := Event(1, 2, 0, HIGH)
  const LATER := Event(1, 3, 0, LOW)

  /** A scan that found no ceiling is still running when the batch starts. */
  lemma CeilingFreeScanOccurs(cfg: Config) returns (s: State)
    ensures Reachable(cfg, s) && AboutToRaise(s, URGENT, SOON) && s.WideScan() && s.disp.limit == LEVELS
  {
    LeadsSelf(cfg, Init());
    s := Init();
    s := Advances(cfg, s, DispatcherMoves);
    s := Advances(cfg, s, DispatcherMoves);
    s := Advances(cfg, s, Acquire(true, [URGENT, SOON]));
    s := Advances(cfg, s, PublisherMoves);
  }

  /** A scan that loaded the ceiling of an earlier, finished batch is still running when the next batch starts. */
  lemma StaleCeilingScanOccurs(cfg: Config) returns (s: State)
    ensures Reachable(cfg, s) && AboutToRaise(s, URGENT, SOON) && s.WideScan() && s.disp.limit == 2
  {
    LeadsSelf(cfg, Init());
    s := Advances(cfg, Init(), Acquire(true, [LATER]));
    s := Advances(cfg, s, PublisherMoves);
    s := Advances(cfg, s, PublisherMoves);
    s := SkipEvents(cfg, Init(), s, 0);
    s := Advances(cfg, s, PublisherMoves);
    s := Advances(cfg, s, DispatcherMoves);
    s := Advances(cfg, s, DispatcherMoves);
    s := FinishLater(cfg, s);
    s := Advances(cfg, s, Acquire(true, [URGENT, SOON]));
    s := Advances(cfg, s, PublisherMoves);
  }

  // The first batch writes its event in pass 3, clears the ceiling and unlocks; the scan has not moved.
  lemma FinishLater(cfg: Config, s0: State) returns (s: State)
    requires Reachable(cfg, s0) && Lengths(s0) && s0.holder == Publisher(0, true, [LATER], Pass(1, 0), false)
    requires s0.queues[0] == [] && s0.queues[1] == [] && s0.queues[3] == []
    ensures Reachable(cfg, s) && Lengths(s) && s.holder.Free? && s.closer == s0.closer && s.disp == s0.disp
    ensures s.queues[0] == [] && s.queues[1] == []
  {
    s := SkipEvents(cfg, Init(), s0, 1);
    s := SkipPass(cfg, Init(), s, 2);
    s := Advances(cfg, s, PublisherMoves);
    s := Advances(cfg, s, PublisherMoves);
    var t := Accept(s);
    s := Advances(cfg, s, PublisherMoves);
    assert s == t;
    s := Advances(cfg, s, PublisherMoves);
    s := SkipPass(cfg, Init(), s, 4);
    s := Advances(cfg, s, PublisherMoves);
    s := Advances(cfg, s, PublisherMoves);
  }

  // ---------- and both invert the batch ----------

  /** A scan that found no ceiling lets a batch that starts while it runs come out in the wrong order. */
  lemma CeilingFreeScanInverts(cfg: Config) returns (s: State, t: State)
    ensures Reachable(cfg, s) && AboutToRaise(s, URGENT, SOON) && s.disp.Scan? && s.disp.limit == LEVELS
    ensures Leads(cfg, PublisherStep(cfg, s).value, t) && Inverted(t, s.holder.call)
  {
    s := CeilingFreeScanOccurs(cfg);
    ReachableInv(cfg, s);
    t := WideScanInverts(cfg, s, URGENT, SOON);
  }

  /** So does a scan that loaded the ceiling of an earlier batch, finished since. */
  lemma StaleCeilingScanInverts(cfg: Config) returns (s: State, t: State)
    ensures Reachable(cfg, s) && AboutToRaise(s, URGENT, SOON) && s.disp.Scan? && s.disp.limit == 2
    ensures Leads(cfg, PublisherStep(cfg, s).value, t) && Inverted(t, s.holder.call)
  {
    s := StaleCeilingScanOccurs(cfg);
    ReachableInv(cfg, s);
    t := WideScanInverts(cfg, s, URGENT, SOON);
  }
}
