/**
 Watching a change log: the reader pulls records after its cursor again and again while writers append,
 between pulls and during them. One step per record streamed, per pull begun or ended, per wait and per
 append. The feed streams from a position of its own, set when a pull begins; the reader's cursor moves in the
 callback. That the two stay together is proved.
*/
module Watch {

  datatype Record = Record(lsn: nat, payload: int)

  const INITIAL_BACKOFF: nat := 25
  const MAX_BACKOFF: nat := 500

  datatype Phase =
    | Idle                      // about to check the context and pull
    | Pulling(pull: Pull)       // the change feed is streaming
    | Waiting                   // caught up, waiting for the timer
    | Stopped

  /**
   A pull in progress, as the feed keeps it: the LSN it was asked to start after, the index of the record it
   looks at next, and how many records were committed when it began.
  */
  datatype Pull = Pull(after: nat, next: nat, visible: nat)

  datatype State = State(log: seq<Record>, lastSeen: nat, produced: bool, backoff: nat, phase: Phase,
      yielded: seq<Record>, cancelled: bool)

  datatype Step =
    | Append(r: Record)
    | Cancel
    | BeginPull
    | Stream(accepted: bool)    // the feed moves to its next record; accepted is what the consumer's loop body answers
    | EndPull
    | FailPull
    | Tick

  function Init(log: seq<Record>, fromLSN: nat): State {
    State(log, Before(fromLSN), false, INITIAL_BACKOFF, Idle, [], false)
  }

  /** The cursor that stands before the first wanted record. */
  function Before(fromLSN: nat): nat { if fromLSN > 0 then fromLSN - 1 else 0 }

  // ---------- the log ----------

  ghost predicate Ascending(log: seq<Record>) { forall i, j :: 0 <= i < j < |log| ==> log[i].lsn < log[j].lsn }

  predicate Beyond(log: seq<Record>, r: Record) { log == [] || log[|log| - 1].lsn < r.lsn }

  /** The index of the first record beyond an LSN, or the end. */
  function FirstAfter(log: seq<Record>, lsn: nat): (i: nat)
    ensures i <= |log| && (i < |log| ==> log[i].lsn > lsn) && forall j :: 0 <= j < i ==> log[j].lsn <= lsn
  {
    if log == [] then 0
    else
      var i := FirstAfter(log[..|log| - 1], lsn);
      if i < |log| - 1 || log[|log| - 1].lsn > lsn then i else |log|
  }

  lemma FirstAfterIs(log: seq<Record>, lsn: nat, i: nat)
    requires Ascending(log) && i <= |log| && (i < |log| ==> log[i].lsn > lsn) && (i > 0 ==> log[i - 1].lsn <= lsn)
    ensures FirstAfter(log, lsn) == i
  {
  }

  // ---------- steps ----------

  /**
   Steps that are not possible in a state leave it as it is. Commits become visible in ascending order. A
   pull may stream records committed while it runs, and may end once it is past those it started with.
  */
  function Do(s: State, step: Step): State {
    match step
    case Append(r) => if Beyond(s.log, r) then s.(log := s.log + [r]) else s
    case Cancel => s.(cancelled := true)
    case BeginPull =>
      if !s.phase.Idle? then s
      else if s.cancelled then s.(phase := Stopped)
      else s.(phase := Pulling(Pull(s.lastSeen, FirstAfter(s.log, s.lastSeen), |s.log|)), produced := false)
    case Stream(accepted) => if s.phase.Pulling? && s.phase.pull.next < |s.log| then StreamNext(s, accepted) else s
    case EndPull =>
      if !s.phase.Pulling? || s.phase.pull.next < s.phase.pull.visible then s
      else if s.produced then s.(phase := Idle, backoff := INITIAL_BACKOFF)
      else s.(phase := Waiting)
    case FailPull => if s.phase.Pulling? then s.(phase := Stopped) else s
    case Tick =>
      if !s.phase.Waiting? then s
      else if s.cancelled then s.(phase := Stopped)
      else s.(phase := Idle, backoff := if 2 * s.backoff > MAX_BACKOFF then MAX_BACKOFF else 2 * s.backoff)
  }

  /** The feed passes over a record it was not asked for, and hands any other one to the callback. */
  function StreamNext(s: State, accepted: bool): State
    requires s.phase.Pulling? && s.phase.pull.next < |s.log|
  {
    var r, on := s.log[s.phase.pull.next], Pulling(s.phase.pull.(next := s.phase.pull.next + 1));
    if r.lsn <= s.phase.pull.after then s.(phase := on)
    else if s.cancelled then s.(phase := Stopped)
    else if !accepted then s.(yielded := s.yielded + [r], phase := Stopped)
    else s.(yielded := s.yielded + [r], lastSeen := r.lsn, produced := true, phase := on)
  }

  function Run(s: State, steps: seq<Step>): State {
    if steps == [] then s else Do(Run(s, steps[..|steps| - 1]), steps[|steps| - 1])
  }

  // ---------- exactly once, in order ----------

  /** The wanted records that are committed so far. */
  function Wanted(log: seq<Record>, fromLSN: nat): seq<Record> { log[FirstAfter(log, Before(fromLSN))..] }

  /** The records yielded are the first of the wanted ones. */
  ghost predicate IsPrefix(yielded: seq<Record>, log: seq<Record>, fromLSN: nat) { yielded <= Wanted(log, fromLSN) }

  /** The cursor stands behind the last record yielded. */
  ghost predicate AtCursor(yielded: seq<Record>, log: seq<Record>, lastSeen: nat, fromLSN: nat) {
    var k := |yielded|;
    && (if k == 0 then lastSeen == Before(fromLSN) else lastSeen == yielded[k - 1].lsn)
    && FirstAfter(log, lastSeen) == FirstAfter(log, Before(fromLSN)) + k
  }

  /**
   The feed's position and the reader's cursor belong together: once a record was delivered they are at the same
   place, and before that everything between them is older than what the pull asks for.
  */
  ghost predicate InStep(pull: Pull, log: seq<Record>, lastSeen: nat, produced: bool) {
    && pull.visible <= |log| && pull.next <= FirstAfter(log, lastSeen)
    && (if produced then pull.next == FirstAfter(log, lastSeen) && pull.after < lastSeen else pull.after == lastSeen)
  }

  /** A reader that runs has yielded everything up to its cursor; during a pull the feed is in step with it. */
  ghost predicate Running(s: State, fromLSN: nat) {
    && AtCursor(s.yielded, s.log, s.lastSeen, fromLSN)
    && (s.phase.Pulling? ==> InStep(s.phase.pull, s.log, s.lastSeen, s.produced) && (s.produced ==> s.yielded != []))
  }

  ghost predicate Inv(s: State, fromLSN: nat) {
    && Ascending(s.log) && IsPrefix(s.yielded, s.log, fromLSN)
    && INITIAL_BACKOFF <= s.backoff <= MAX_BACKOFF
    && (!s.phase.Stopped? ==> Running(s, fromLSN))
  }

  lemma AppendedLog(log: seq<Record>, r: Record, lsn: nat)
    requires Ascending(log) && Beyond(log, r)
    ensures Ascending(log + [r])
    ensures FirstAfter(log + [r], lsn) == if FirstAfter(log, lsn) < |log|
        || r.lsn > lsn then FirstAfter(log, lsn) else |log| + 1
  {
    assert (log + [r])[..|log|] == log;
  }

  lemma WantedGrows(log: seq<Record>, r: Record, fromLSN: nat)
    requires Ascending(log) && Beyond(log, r)
    ensures Wanted(log, fromLSN) <= Wanted(log + [r], fromLSN)
  {
    AppendedLog(log, r, Before(fromLSN));
  }

  // The cursor stands on a record of the log, or before the first wanted one.
  lemma CursorInLog(yielded: seq<Record>, log: seq<Record>, lastSeen: nat, fromLSN: nat)
    requires Ascending(log) && IsPrefix(yielded, log, fromLSN) && AtCursor(yielded, log, lastSeen, fromLSN)
        && yielded != []
    ensures log != [] && lastSeen <= log[|log| - 1].lsn
  {
    var k, first := |yielded|, FirstAfter(log, Before(fromLSN));
    assert yielded[k - 1] == Wanted(log, fromLSN)[k - 1];
    assert log[first + k - 1].lsn == lastSeen;
  }

  lemma AppendKeepsCursor(yielded: seq<Record>, log: seq<Record>, lastSeen: nat, fromLSN: nat, r: Record)
    requires Ascending(log) && IsPrefix(yielded, log, fromLSN) && AtCursor(yielded, log, lastSeen, fromLSN)
        && Beyond(log, r)
    ensures AtCursor(yielded, log + [r], lastSeen, fromLSN)
  {
    AppendedLog(log, r, Before(fromLSN));
    AppendedLog(log, r, lastSeen);
    if yielded != [] {
      CursorInLog(yielded, log, lastSeen, fromLSN);
    }
  }

  lemma AppendKeepsStep(s: State, fromLSN: nat, r: Record)
    requires Inv(s, fromLSN) && s.phase.Pulling? && Beyond(s.log, r)
    ensures InStep(s.phase.pull, s.log + [r], s.lastSeen, s.produced)
  {
    AppendedLog(s.log, r, s.lastSeen);
    if s.produced {
      CursorInLog(s.yielded, s.log, s.lastSeen, fromLSN);
    }
  }

  lemma AppendKeeps(s: State, fromLSN: nat, r: Record)
    requires Inv(s, fromLSN) && Beyond(s.log, r)
    ensures Inv(s.(log := s.log + [r]), fromLSN)
  {
    AppendedLog(s.log, r, Before(fromLSN));
    WantedGrows(s.log, r, fromLSN);
    if !s.phase.Stopped? {
      AppendKeepsCursor(s.yielded, s.log, s.lastSeen, fromLSN, r);
      if s.phase.Pulling? {
        AppendKeepsStep(s, fromLSN, r);
      }
    }
  }

  /** The record at the feed's position, if the pull asks for it, is the next one the reader wants. */
  lemma FeedIsAtCursor(s: State, fromLSN: nat)
    requires Inv(s, fromLSN) && s.phase.Pulling? && s.phase.pull.next < |s.log|
    requires s.log[s.phase.pull.next].lsn > s.phase.pull.after
    ensures s.phase.pull.next == FirstAfter(s.log, s.lastSeen)
    ensures |s.yielded| < |Wanted(s.log, fromLSN)| && Wanted(s.log, fromLSN)[|s.yielded|] == s.log[s.phase.pull.next]
  {
  }

  // Yielding the next wanted record keeps the prefix, and accepting it moves the cursor behind it.
  lemma YieldNext(yielded: seq<Record>, log: seq<Record>, lastSeen: nat, fromLSN: nat)
    requires Ascending(log) && IsPrefix(yielded, log, fromLSN) && AtCursor(yielded, log, lastSeen, fromLSN)
    requires FirstAfter(log, lastSeen) < |log|
    ensures var i := FirstAfter(log, lastSeen);
            && IsPrefix(yielded + [log[i]], log, fromLSN) && AtCursor(yielded + [log[i]], log, log[i].lsn, fromLSN)
            && FirstAfter(log, log[i].lsn) == i + 1
  {
    var i := FirstAfter(log, lastSeen);
    assert Wanted(log, fromLSN)[|yielded|] == log[i];
    FirstAfterIs(log, log[i].lsn, i + 1);
  }

  lemma StreamKeeps(s: State, fromLSN: nat, accepted: bool)
    requires Inv(s, fromLSN) && s.phase.Pulling? && s.phase.pull.next < |s.log|
    ensures Inv(StreamNext(s, accepted), fromLSN)
  {
    if s.log[s.phase.pull.next].lsn > s.phase.pull.after {
      FeedIsAtCursor(s, fromLSN);
      YieldNext(s.yielded, s.log, s.lastSeen, fromLSN);
    }
  }

  // Steps that stream nothing and append nothing.
  lemma QuietStep(s: State, fromLSN: nat, step: Step)
    requires Inv(s, fromLSN) && !step.Append? && !step.Stream?
    ensures Inv(Do(s, step), fromLSN)
  {
  }

  lemma InvStep(s: State, fromLSN: nat, step: Step)
    requires Inv(s, fromLSN)
    ensures Inv(Do(s, step), fromLSN)
  {
    if step.Append? {
      if Beyond(s.log, step.r) {
        AppendKeeps(s, fromLSN, step.r);
      }
    } else if step.Stream? {
      if s.phase.Pulling? && s.phase.pull.next < |s.log| {
        StreamKeeps(s, fromLSN, step.accepted);
      }
    } else {
      QuietStep(s, fromLSN, step);
    }
  }

  lemma {:induction false} RunInv(log: seq<Record>, fromLSN: nat, steps: seq<Step>)
    requires Ascending(log)
    ensures Inv(Run(Init(log, fromLSN), steps), fromLSN)
    decreases |steps|
  {
    if steps != [] {
      RunInv(log, fromLSN, steps[..|steps| - 1]);
      InvStep(Run(Init(log, fromLSN), steps[..|steps| - 1]), fromLSN, steps[|steps| - 1]);
    }
  }

  /**
   After any run the records yielded are the first of the committed records from fromLSN on: none is
   skipped, repeated or out of order; and the idle wait stays within its bounds.
  */
  lemma YieldsAreAPrefix(log: seq<Record>, fromLSN: nat, steps: seq<Step>)
    requires Ascending(log)
    ensures var s := Run(Init(log, fromLSN), steps);
            s.yielded <= Wanted(s.log, fromLSN) && Ascending(s.yielded) && INITIAL_BACKOFF <= s.backoff <= MAX_BACKOFF
  {
    RunInv(log, fromLSN, steps);
    var s := Run(Init(log, fromLSN), steps);
    forall i, j | 0 <= i < j < |s.yielded|
      ensures s.yielded[i].lsn < s.yielded[j].lsn
    {
      assert s.yielded[i] == Wanted(s.log, fromLSN)[i] && s.yielded[j] == Wanted(s.log, fromLSN)[j];
    }
  }

  /** The wanted records are exactly the committed ones with an LSN of at least fromLSN, where LSNs start at 1. */
  lemma WantedAreFrom(log: seq<Record>, fromLSN: nat, r: Record)
    requires Ascending(log) && forall i :: 0 <= i < |log| ==> log[i].lsn >= 1
    ensures r in Wanted(log, fromLSN) <==> r in log && r.lsn >= fromLSN
  {
    var first := FirstAfter(log, Before(fromLSN));
    if r in log && r.lsn >= fromLSN {
      var i :| 0 <= i < |log| && log[i] == r;
      assert Wanted(log, fromLSN)[i - first] == r;
    }
    if r in Wanted(log, fromLSN) {
      var i :| 0 <= i < |Wanted(log, fromLSN)| && Wanted(log, fromLSN)[i] == r;
      assert log[first + i] == r;
      assert i > 0 ==> log[first].lsn < log[first + i].lsn;
    }
  }

  lemma CaughtUp(log: seq<Record>, yielded: seq<Record>, visible: nat, fromLSN: nat)
    requires Ascending(log) && visible <= |log| && yielded <= Wanted(log, fromLSN)
        && FirstAfter(log, Before(fromLSN)) + |yielded| >= visible
    ensures Wanted(log[..visible], fromLSN) <= yielded
  {
    PrefixWanted(log, visible, fromLSN);
  }

  lemma PullEnds(s: State, fromLSN: nat)
    requires Inv(s, fromLSN) && s.phase.Pulling? && !Do(s, EndPull).phase.Pulling?
    ensures s.phase.pull.visible <= |s.log|
    ensures Wanted(s.log[..s.phase.pull.visible], fromLSN) <= s.yielded && s.yielded == Do(s, EndPull).yielded
  {
    CaughtUp(s.log, s.yielded, s.phase.pull.visible, fromLSN);
  }

  /** When a pull has ended and the reader runs on, everything committed when the pull began has been yielded. */
  lemma PullCatchesUp(log: seq<Record>, fromLSN: nat, steps: seq<Step>)
    requires Ascending(log)
    ensures var s := Run(Init(log, fromLSN), steps); var t := Do(s, EndPull);
            s.phase.Pulling? && !t.phase.Pulling? ==>
              s.phase.pull.visible <= |s.log| && Wanted(s.log[..s.phase.pull.visible], fromLSN) <= t.yielded
  {
    RunInv(log, fromLSN, steps);
    var s := Run(Init(log, fromLSN), steps);
    if s.phase.Pulling? && !Do(s, EndPull).phase.Pulling? {
      PullEnds(s, fromLSN);
    }
  }

  lemma PrefixWanted(log: seq<Record>, n: nat, fromLSN: nat)
    requires Ascending(log) && n <= |log|
    ensures var first := FirstAfter(log, Before(fromLSN)); Wanted(log[..n], fromLSN) == if first <= n then
        log[first..n] else []
  {
    var first := FirstAfter(log, Before(fromLSN));
    FirstAfterIs(log[..n], Before(fromLSN), if first <= n then first else n);
  }
}
