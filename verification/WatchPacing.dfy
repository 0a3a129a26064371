/**
 How the watching reader proceeds: what each step does, how its idle wait grows and shrinks, that it can always
 catch up, and that it is silent once cancelled or stopped.
*/
module WatchPacing {
  import opened Watch

  // ---------- single steps ----------

  /** A pull starts after the cursor and sees everything committed; a cancelled reader stops instead. */
  lemma PullBegins(s: State)
    ensures s.phase.Idle? && !s.cancelled ==>
      var t := Do(s, BeginPull);
      && t.phase.Pulling? && t.phase.pull.after == s.lastSeen && t.phase.pull.visible == |s.log| && !t.produced
      && t.phase.pull.next <= |s.log| && (forall j :: 0 <= j < t.phase.pull.next ==> s.log[j].lsn <= s.lastSeen)
      && t.log == s.log && t.lastSeen == s.lastSeen && t.yielded == s.yielded && t.backoff == s.backoff
    ensures s.phase.Idle? && s.cancelled ==> Do(s, BeginPull) == s.(phase := Stopped)
  {
  }

  /** A record beyond the pull's start is yielded, and the cursor moves to it if the consumer goes on. */
  lemma RecordStreams(s: State, accepted: bool)
    requires s.phase.Pulling? && s.phase.pull.next < |s.log| && !s.cancelled
    ensures var r, t, pull := s.log[s.phase.pull.next], Do(s, Stream(accepted)), s.phase.pull;
            if r.lsn <= pull.after then t == s.(phase := Pulling(pull.(next := pull.next + 1)))
            else if accepted then
              t == s.(
                yielded := s.yielded + [r], lastSeen := r.lsn, produced := true,
                phase := Pulling(pull.(next := pull.next + 1)))
            else t == s.(yielded := s.yielded + [r], phase := Stopped)
  {
  }

  /** A productive pull sets the wait back to 25 and goes on at once; an idle one waits. */
  lemma PullEnding(s: State)
    requires s.phase.Pulling? && s.phase.pull.next >= s.phase.pull.visible
    ensures s.produced ==> Do(s, EndPull) == s.(phase := Idle, backoff := 25)
    ensures !s.produced ==> Do(s, EndPull) == s.(phase := Waiting)
  {
  }

  /** After an idle wait the next one is twice as long, but never above 500. */
  lemma WaitEnds(s: State)
    requires s.phase.Waiting?
    ensures !s.cancelled && s.backoff <= 250 ==> Do(s, Tick) == s.(phase := Idle, backoff := s.backoff + s.backoff)
    ensures !s.cancelled && s.backoff > 250 ==> Do(s, Tick) == s.(phase := Idle, backoff := 500)
    ensures s.cancelled ==> Do(s, Tick) == s.(phase := Stopped)
  {
  }

  // ---------- idle rounds ----------

  lemma {:induction false} RunInTwo(s: State, first: seq<Step>, second: seq<Step>)
    ensures Run(s, first + second) == Run(Run(s, first), second)
    decreases |second|
  {
    if second == [] {
      assert first + second == first;
    } else {
      var n, all := |second| - 1, first + second;
      RunInTwo(s, first, second[..n]);
      assert all[..|all| - 1] == first + second[..n] && all[|all| - 1] == second[n];
    }
  }

  lemma RunOne(s: State, step: Step)
    ensures Run(s, [step]) == Do(s, step)
  {
    assert [step][..0] == [];
  }

  /** One pull that finds nothing, and the wait after it. */
  function IdleRound(): seq<Step> { [BeginPull] + [EndPull] + [Tick] }

  lemma RoundRuns(s: State)
    ensures Run(s, IdleRound()) == Do(Do(Do(s, BeginPull), EndPull), Tick)
  {
    RunInTwo(s, [BeginPull] + [EndPull], [Tick]);
    RunInTwo(s, [BeginPull], [EndPull]);
    RunOne(s, BeginPull);
    RunOne(Do(s, BeginPull), EndPull);
    RunOne(Do(Do(s, BeginPull), EndPull), Tick);
  }

  function Rounds(n: nat): seq<Step> { if n == 0 then [] else Rounds(n - 1) + IdleRound() }

  /** The wait after n idle rounds: 25, 50, 100, 200, 400 and then 500. */
  function WaitAfter(n: nat): nat {
    if n == 0 then 25 else if n == 1 then 50 else if n == 2 then 100 else if n == 3 then 200 else if n == 4 then 400
    else 500
  }

  /** While nothing is committed the reader yields nothing and its wait doubles from round to round up to 500. */
  lemma {:induction false} IdleRounds(s: State, n: nat)
    requires s.phase.Idle? && !s.cancelled && s.backoff == 25 && !s.produced
    requires forall i :: 0 <= i < |s.log| ==> s.log[i].lsn <= s.lastSeen
    ensures Run(s, Rounds(n)) == s.(backoff := WaitAfter(n))
    decreases n
  {
    if n > 0 {
      IdleRounds(s, n - 1);
      var t := s.(backoff := WaitAfter(n - 1));
      RunInTwo(s, Rounds(n - 1), IdleRound());
      RoundRuns(t);
      assert FirstAfter(t.log, t.lastSeen) == |t.log|;
      var pulling := Do(t, BeginPull);
      PullEnding(pulling);
      assert Do(pulling, EndPull) == pulling.(phase := Waiting);
      WaitEnds(pulling.(phase := Waiting));
    }
  }

  // ---------- catching up ----------

  /** The rest of a pull that nobody disturbs. */
  lemma {:induction false} PullRunsOn(s: State, fromLSN: nat) returns (steps: seq<Step>)
    requires Inv(s, fromLSN) && s.phase.Pulling? && !s.cancelled
    ensures var t := Run(s, steps);
            && Inv(t, fromLSN) && t.phase.Pulling? && !t.cancelled && t.log == s.log && t.phase.pull.next >= |s.log|
    decreases |s.log| - s.phase.pull.next
  {
    steps := [];
    if s.phase.pull.next < |s.log| {
      var t := Do(s, Stream(true));
      InvStep(s, fromLSN, Stream(true));
      var rest := PullRunsOn(t, fromLSN);
      RunOne(s, Stream(true));
      RunInTwo(s, [Stream(true)], rest);
      steps := [Stream(true)] + rest;
    }
  }

  lemma AllYielded(s: State, fromLSN: nat)
    requires Inv(s, fromLSN) && s.phase.Pulling? && s.phase.pull.next >= |s.log|
    ensures s.yielded == Wanted(s.log, fromLSN)
  {
    CaughtUp(s.log, s.yielded, |s.log|, fromLSN);
    assert s.log[..|s.log|] == s.log;
  }

  /** From every reachable state between two pulls the reader alone can get to yield everything wanted so far. */
  lemma CanCatchUp(log: seq<Record>, fromLSN: nat, steps: seq<Step>) returns (more: seq<Step>)
    requires Ascending(log)
    requires var s := Run(Init(log, fromLSN), steps); s.phase.Idle? && !s.cancelled
    ensures var s, t := Run(Init(log, fromLSN), steps), Run(Init(log, fromLSN), steps + more);
            t.log == s.log && t.yielded == Wanted(s.log, fromLSN) && t.phase.Pulling?
  {
    var s := Run(Init(log, fromLSN), steps);
    RunInv(log, fromLSN, steps);
    InvStep(s, fromLSN, BeginPull);
    RunOne(s, BeginPull);
    var rest := PullRunsOn(Do(s, BeginPull), fromLSN);
    RunInTwo(s, [BeginPull], rest);
    more := [BeginPull] + rest;
    RunInTwo(Init(log, fromLSN), steps, more);
    AllYielded(Run(Init(log, fromLSN), steps + more), fromLSN);
  }

  // ---------- silence ----------

  /** A reader that is cancelled or has stopped yields nothing more, whatever happens. */
  lemma {:induction false} SilentForGood(s: State, steps: seq<Step>)
    requires s.cancelled || s.phase.Stopped?
    ensures var t := Run(s, steps);
            && t.yielded == s.yielded && (s.cancelled ==> t.cancelled) && (s.phase.Stopped? ==> t.phase.Stopped?)
    decreases |steps|
  {
    if steps != [] {
      SilentForGood(s, steps[..|steps| - 1]);
    }
  }

  /** A refused record is the last one yielded. */
  lemma RefusalIsFinal(s: State, steps: seq<Step>)
    requires s.phase.Pulling? && s.phase.pull.next < |s.log| && !s.cancelled
    requires s.log[s.phase.pull.next].lsn > s.phase.pull.after
    ensures Run(Do(s, Stream(false)), steps).yielded == s.yielded + [s.log[s.phase.pull.next]]
  {
    RecordStreams(s, false);
    SilentForGood(Do(s, Stream(false)), steps);
  }
}
