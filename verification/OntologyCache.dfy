/**
 Label classification by token: a lazily filled cache in front of a label registry that can be swapped while
 lookups are in progress. One step per lock section and per registry call; any number of callers interleave with
 swaps, with registrations of new labels and with rollbacks that take the latest labels back.
*/
module OntologyCache {
  import opened Options

  type Token = nat

  type Caller = nat

  datatype Class = Event | Reference

  /** Where a call of the lookup stands. */
  datatype Phase =
    | Snapshot                          // about to read the cache and the registry pointer under the read lock
    | Resolve(reg: nat)                 // missed; about to ask the registry it saw
    | Store(reg: nat, found: Class)     // about to take the write lock
    | Done(result: Class)

  /** A call in progress or finished, with every uncached answer that held while it ran. */
  datatype Call = Call(token: Token, phase: Phase, answers: set<Class>)

  /** Registries are numbered; a registry lists its names, and token t stands for the t-th of them. */
  datatype State = State(
    byToken: map<Token, Class>, labelReg: Option<nat>, registries: map<nat, seq<string>>, calls: map<Caller, Call>)

  datatype Step =
    | Begin(c: Caller, token: Token)
    | Advance(c: Caller)
    | SetLabelRegistry(next: Option<nat>)
    | Register(reg: nat, name: string)
    | Rollback(reg: nat, keep: nat)

  function Init(): State { State(map[], None, map[], map[]) }

  // ---------- the uncached answer ----------

  function Names(s: State, reg: nat): seq<string> { if reg in s.registries then s.registries[reg] else [] }

  /** The name that a token stands for, or the empty string. */
  function NameAt(names: seq<string>, token: Token): string {
    if 1 <= token <= |names| then names[token - 1] else ""
  }

  function Lookup(s: State, reg: nat, token: Token): string { NameAt(Names(s, reg), token) }

  /** The class of a name; an unknown one, and the lack of one, is an event. */
  function ClassOf(refs: set<string>, name: string): Class { if name != "" && name in refs then Reference else Event }

  /** What a lookup without the cache answers in this state. */
  function Uncached(refs: set<string>, s: State, token: Token): Class {
    if s.labelReg.None? then Event else ClassOf(refs, Lookup(s, s.labelReg.value, token))
  }

  // ---------- steps ----------

  function AdvanceCall(refs: set<string>, s: State, c: Caller): State
    requires c in s.calls
  {
    var call := s.calls[c];
    match call.phase
    case Snapshot =>
      if call.token == 0 then Put(s, c, Done(Event))
      else if call.token in s.byToken then Put(s, c, Done(s.byToken[call.token]))
      else if s.labelReg.None? then Put(s, c, Done(Event))
      else Put(s, c, Resolve(s.labelReg.value))
    case Resolve(reg) =>
      var name := Lookup(s, reg, call.token);
      if name == "" then Put(s, c, Done(Event)) else Put(s, c, Store(reg, ClassOf(refs, name)))
    case Store(reg, found) =>
      if s.labelReg != Some(reg) then Put(s, c, Snapshot)
      else Put(s.(byToken := s.byToken[call.token := found]), c, Done(found))
    case Done(_) => s
  }

  function Put(s: State, c: Caller, phase: Phase): State
    requires c in s.calls
  {
    s.(calls := s.calls[c := s.calls[c].(phase := phase)])
  }

  predicate Running(s: State, c: Caller) { c in s.calls && !s.calls[c].phase.Done? }

  /**
   A swap installs the registry and empties the cache. A new name takes the next token. A rollback keeps the first
   names, so that the tokens of the others are given out again; it leaves the cache alone.
  */
  function Move(refs: set<string>, s: State, step: Step): State {
    match step
    case Begin(c, token) => if Running(s, c) then s else s.(calls := s.calls[c := Call(token, Snapshot, {})])
    case Advance(c) => if c in s.calls then AdvanceCall(refs, s, c) else s
    case SetLabelRegistry(reg) => s.(labelReg := reg, byToken := map[])
    case Register(reg, name) =>
      if name == "" || name in Names(s, reg) then s
      else s.(registries := s.registries[reg := Names(s, reg) + [name]])
    case Rollback(reg, keep) =>
      if keep > |Names(s, reg)| then s else s.(registries := s.registries[reg := Names(s, reg)[..keep]])
  }

  /** Every running call takes note of the uncached answer. */
  function Witness(refs: set<string>, s: State): State {
    s.(calls := map c | c in s.calls :: Noted(refs, s, s.calls[c]))
  }

  function Noted(refs: set<string>, s: State, call: Call): Call {
    if call.phase.Done? then call else call.(answers := call.answers + {Uncached(refs, s, call.token)})
  }

  /** Between any two moves the running calls observe the state. */
  function Do(refs: set<string>, s: State, step: Step): State { Witness(refs, Move(refs, s, step)) }

  function Run(refs: set<string>, s: State, steps: seq<Step>): State {
    if steps == [] then s else Do(refs, Run(refs, s, steps[..|steps| - 1]), steps[|steps| - 1])
  }

  // ---------- right and wrong ----------

  /** A finished lookup returned what no instant within its call would have answered. */
  ghost predicate Wrong(s: State) {
    exists c :: c in s.calls && s.calls[c].phase.Done? && s.calls[c].phase.result !in s.calls[c].answers
  }

  /** All reference labels are among the names. */
  ghost predicate RefsWithin(refs: set<string>, names: seq<string>) {
    forall name :: name in refs && name != "" ==> name in names
  }

  /** The class of the token cannot change any more unless names are taken back. */
  ghost predicate Settled(refs: set<string>, names: seq<string>, token: Token) {
    token != 0 && (token <= |names| || RefsWithin(refs, names))
  }

  ghost predicate NamesOk(names: seq<string>) {
    && (forall i :: 0 <= i < |names| ==> names[i] != "")
    && (forall i, j :: 0 <= i < j < |names| ==> names[i] != names[j])
  }

  ghost predicate RegistriesOk(s: State) { forall reg :: reg in s.registries ==> NamesOk(s.registries[reg]) }

  /** Every cached entry is the uncached answer of the wired registry, and that answer is settled. */
  ghost predicate Coherent(refs: set<string>, s: State) {
    forall token :: token in s.byToken ==>
      && s.labelReg.Some? && Settled(refs, Names(s, s.labelReg.value), token)
      && s.byToken[token] == Uncached(refs, s, token)
  }

  /** What the progress of a call says about the answers that held during it. */
  ghost predicate PhaseOk(refs: set<string>, s: State, call: Call) {
    match call.phase
    case Snapshot => true
    case Resolve(reg) => call.token != 0 && (Lookup(s, reg, call.token) == "" ==> Event in call.answers)
    case Store(reg, found) =>
      Settled(refs, Names(s, reg), call.token) && found == ClassOf(refs, Lookup(s, reg, call.token))
    case Done(result) => result in call.answers
  }

  /** A running call has noted the present answer. */
  ghost predicate CallOk(refs: set<string>, s: State, call: Call) {
    PhaseOk(refs, s, call) && (call.phase.Done? || Uncached(refs, s, call.token) in call.answers)
  }

  ghost predicate Inv(refs: set<string>, s: State) {
    RegistriesOk(s) && Coherent(refs, s) && forall c :: c in s.calls ==> CallOk(refs, s, s.calls[c])
  }

  // ---------- which rollbacks are safe ----------

  /** A dropped token is cached for the wired registry. */
  predicate CachedBeyond(s: State, reg: nat, keep: nat, token: Token) {
    token > keep && s.labelReg == Some(reg) && token in s.byToken
  }

  /** A lookup is about to store what it found for a dropped token. */
  predicate StoringBeyond(s: State, reg: nat, keep: nat, c: Caller) {
    c in s.calls && s.calls[c].token > keep && s.calls[c].phase.Store? && s.calls[c].phase.reg == reg
  }

  /** A lookup is about to ask the registry, which is not wired any more, for a dropped token. */
  predicate AskingBeyond(s: State, reg: nat, keep: nat, c: Caller) {
    && c in s.calls && s.calls[c].token > keep && s.calls[c].phase == Resolve(reg) && s.labelReg != Some(reg)
  }

  /**
   Nothing known of a dropped token can turn out false: either no reference label is left to be given such a token,
   or none is cached or about to be cached; and a lookup that will find the token gone may answer so.
  */
  ghost predicate SafeRollback(refs: set<string>, s: State, reg: nat, keep: nat)
    requires keep <= |Names(s, reg)|
  {
    && (RefsWithin(refs, Names(s, reg)[..keep])
        || ((forall token :: !CachedBeyond(s, reg, keep, token)) && forall c :: !StoringBeyond(s, reg, keep, c)))
    && (forall c :: AskingBeyond(s, reg, keep, c) ==> Event in s.calls[c].answers)
  }

  ghost predicate Safe(refs: set<string>, s: State, step: Step) {
    step.Rollback? && step.keep <= |Names(s, step.reg)| ==> SafeRollback(refs, s, step.reg, step.keep)
  }

  // ---------- names and classes from step to step ----------

  lemma SettledGrows(refs: set<string>, names: seq<string>, name: string, token: Token)
    requires Settled(refs, names, token) && name != "" && name !in names
    ensures Settled(refs, names + [name], token)
    ensures ClassOf(refs, NameAt(names + [name], token)) == ClassOf(refs, NameAt(names, token))
  {
  }

  lemma SettledKept(refs: set<string>, names: seq<string>, keep: nat, token: Token)
    requires NamesOk(names) && Settled(refs, names, token) && keep <= |names|
    requires token <= keep || RefsWithin(refs, names[..keep])
    ensures Settled(refs, names[..keep], token)
    ensures ClassOf(refs, NameAt(names[..keep], token)) == ClassOf(refs, NameAt(names, token))
  {
    if keep < token <= |names| {
      assert names[token - 1] !in names[..keep];
    }
  }

  lemma RegistriesMove(refs: set<string>, s: State, step: Step)
    requires RegistriesOk(s)
    ensures RegistriesOk(Move(refs, s, step))
  {
    if step.Register? {
      assert NamesOk(Names(s, step.reg));
    }
  }

  /** The step does not take back the token of a registry. */
  ghost predicate Spares(refs: set<string>, s: State, step: Step, reg: nat, token: Token) {
    step.Rollback? && step.reg == reg && step.keep < token && step.keep <= |Names(s, reg)| ==>
      RefsWithin(refs, Names(s, reg)[..step.keep])
  }

  /** A settled class stays what it is unless the token is taken back. */
  lemma SettledMove(refs: set<string>, s: State, step: Step, reg: nat, token: Token)
    requires RegistriesOk(s) && Settled(refs, Names(s, reg), token) && Spares(refs, s, step, reg, token)
    ensures var t := Move(refs, s, step);
            && Settled(refs, Names(t, reg), token)
            && ClassOf(refs, Lookup(t, reg, token)) == ClassOf(refs, Lookup(s, reg, token))
  {
    var names := Names(s, reg);
    if step.Register? && step.reg == reg && step.name != "" && step.name !in names {
      SettledGrows(refs, names, step.name, token);
    } else if step.Rollback? && step.reg == reg && step.keep <= |names| {
      SettledKept(refs, names, step.keep, token);
    }
  }

  // ---------- the invariant ----------

  lemma CoherentMove(refs: set<string>, s: State, step: Step)
    requires Inv(refs, s) && Safe(refs, s, step)
    ensures Coherent(refs, Move(refs, s, step))
  {
    var t := Move(refs, s, step);
    forall token | token in t.byToken
      ensures t.labelReg.Some? && Settled(refs, Names(t, t.labelReg.value), token)
      ensures t.byToken[token] == Uncached(refs, t, token)
    {
      if token in s.byToken && t.labelReg == s.labelReg && t.byToken[token] == s.byToken[token] {
        var reg := s.labelReg.value;
        assert step.Rollback? && step.reg == reg && step.keep < token ==> CachedBeyond(s, reg, step.keep, token);
        SettledMove(refs, s, step, reg, token);
      } else {
        assert step.Advance?;
        assert CallOk(refs, s, s.calls[step.c]);
      }
    }
  }

  /** A call that does not move keeps what it knows. */
  lemma PhaseKept(refs: set<string>, s: State, step: Step, c: Caller)
    requires Inv(refs, s) && Safe(refs, s, step) && c in s.calls
    ensures var t := Move(refs, s, step); PhaseOk(refs, t, Noted(refs, t, s.calls[c]))
  {
    var call := s.calls[c];
    assert CallOk(refs, s, call);
    if call.phase.Store? {
      var reg := call.phase.reg;
      assert step.Rollback? && step.reg == reg && step.keep < call.token ==> StoringBeyond(s, reg, step.keep, c);
      SettledMove(refs, s, step, reg, call.token);
    } else if call.phase.Resolve? {
      var reg := call.phase.reg;
      assert step.Rollback? && step.reg == reg && step.keep < call.token && s.labelReg != Some(reg) ==>
        AskingBeyond(s, reg, step.keep, c);
    }
  }

  lemma PhaseMoved(refs: set<string>, s: State, c: Caller)
    requires Inv(refs, s) && c in s.calls
    ensures var t := AdvanceCall(refs, s, c); PhaseOk(refs, t, Noted(refs, t, t.calls[c]))
  {
    assert CallOk(refs, s, s.calls[c]);
  }

  lemma CallMoved(refs: set<string>, s: State, step: Step, c: Caller)
    requires Inv(refs, s) && Safe(refs, s, step) && c in Move(refs, s, step).calls
    ensures var t := Move(refs, s, step); PhaseOk(refs, t, Noted(refs, t, t.calls[c]))
  {
    MovedOrKept(refs, s, step, c);
    if step == Advance(c) {
      PhaseMoved(refs, s, c);
    } else if c in s.calls && Move(refs, s, step).calls[c] == s.calls[c] {
      PhaseKept(refs, s, step, c);
    }
  }

  lemma MovedOrKept(refs: set<string>, s: State, step: Step, c: Caller)
    requires c in Move(refs, s, step).calls
    ensures var t := Move(refs, s, step);
            step == Advance(c) || t.calls[c].phase.Snapshot? || (c in s.calls && t.calls[c] == s.calls[c])
  {
  }

  lemma CallNoted(refs: set<string>, s: State, call: Call)
    requires PhaseOk(refs, s, Noted(refs, s, call))
    ensures CallOk(refs, Witness(refs, s), Noted(refs, s, call))
  {
  }

  /** Every step but an unsafe rollback keeps the invariant. */
  lemma InvStep(refs: set<string>, s: State, step: Step)
    requires Inv(refs, s) && Safe(refs, s, step)
    ensures Inv(refs, Do(refs, s, step))
  {
    var t, u := Move(refs, s, step), Do(refs, s, step);
    RegistriesMove(refs, s, step);
    CoherentMove(refs, s, step);
    assert Coherent(refs, u) by {
      assert forall token :: Uncached(refs, u, token) == Uncached(refs, t, token);
    }
    forall c | c in u.calls
      ensures CallOk(refs, u, u.calls[c])
    {
      CallMoved(refs, s, step, c);
      CallNoted(refs, t, t.calls[c]);
    }
  }

  /** Every rollback of the run is safe in the state in which it happens. */
  ghost predicate SafeRun(refs: set<string>, s: State, steps: seq<Step>) {
    forall i :: 0 <= i < |steps| ==> Safe(refs, Run(refs, s, steps[..i]), steps[i])
  }

  lemma {:induction false} RunInv(refs: set<string>, s: State, steps: seq<Step>)
    requires Inv(refs, s) && SafeRun(refs, s, steps)
    ensures Inv(refs, Run(refs, s, steps))
    decreases |steps|
  {
    if steps != [] {
      var n := |steps| - 1;
      assert forall i :: 0 <= i < n ==> steps[..n][..i] == steps[..i];
      RunInv(refs, s, steps[..n]);
      InvStep(refs, Run(refs, s, steps[..n]), steps[n]);
    }
  }

  lemma InvNotWrong(refs: set<string>, s: State)
    requires Inv(refs, s)
    ensures !Wrong(s)
  {
    forall c | c in s.calls && s.calls[c].phase.Done?
      ensures s.calls[c].phase.result in s.calls[c].answers
    {
      assert CallOk(refs, s, s.calls[c]);
    }
  }

  /**
   Whatever the callers, the swaps, the registrations and the safe rollbacks do: every cached entry is the uncached
   answer of the wired registry, and every finished lookup returned the uncached answer of an instant within its
   call.
  */
  lemma LookupsAreLinearizable(refs: set<string>, steps: seq<Step>)
    requires SafeRun(refs, Init(), steps)
    ensures var s := Run(refs, Init(), steps);
            && (forall token :: token in s.byToken ==> s.byToken[token] == Uncached(refs, s, token))
            && (forall c :: c in s.calls && s.calls[c].phase.Done? ==> s.calls[c].phase.result in s.calls[c].answers)
  {
    RunInv(refs, Init(), steps);
    InvNotWrong(refs, Run(refs, Init(), steps));
  }

  // ---------- what the answers noted are ----------

  /** The answers a call has noted before a step: none if the step begins the call. */
  function AnswersBefore(s: State, step: Step, c: Caller): set<Class> {
    if c in s.calls && !(step.Begin? && step.c == c && s.calls[c].phase.Done?) then s.calls[c].answers else {}
  }

  lemma MoveNotesNothing(refs: set<string>, s: State, step: Step, c: Caller)
    requires c in Move(refs, s, step).calls
    ensures Move(refs, s, step).calls[c].answers == AnswersBefore(s, step, c)
  {
  }

  /**
   Each step adds, for a call that still runs after it, the uncached answer of the state it leads to, and nothing
   else.
  */
  lemma AnswersAreOfTheCall(refs: set<string>, s: State, step: Step, c: Caller)
    requires c in Do(refs, s, step).calls
    ensures var u := Do(refs, s, step); var call := u.calls[c];
            call.answers == AnswersBefore(s, step, c) + if call.phase.Done? then {} else {Uncached(refs, u, call.token)}
  {
    var t := Move(refs, s, step);
    MoveNotesNothing(refs, s, step, c);
    assert Uncached(refs, Witness(refs, t), t.calls[c].token) == Uncached(refs, t, t.calls[c].token);
  }

  // ---------- an unsafe rollback goes wrong ----------

  /** t can follow s without any further rollback. */
  ghost predicate Leads(refs: set<string>, s: State, t: State) {
    exists steps :: NoRollback(steps) && Run(refs, s, steps) == t
  }

  predicate NoRollback(steps: seq<Step>) { forall i :: 0 <= i < |steps| ==> !steps[i].Rollback? }

  lemma LeadsSelf(refs: set<string>, s: State)
    ensures Leads(refs, s, s)
  {
    assert NoRollback([]) && Run(refs, s, []) == s;
  }

  lemma LeadsVia(refs: set<string>, s: State, t: State, step: Step)
    requires Leads(refs, s, t) && !step.Rollback?
    ensures Leads(refs, s, Do(refs, t, step))
  {
    var steps :| NoRollback(steps) && Run(refs, s, steps) == t;
    var more := steps + [step];
    assert more[..|more| - 1] == steps;
    assert NoRollback(more) && Run(refs, s, more) == Do(refs, t, step);
  }

  /** Some continuation without further rollbacks has a lookup answer wrongly. */
  ghost predicate GoesWrong(refs: set<string>, s: State) { exists t :: Leads(refs, s, t) && Wrong(t) }

  // A caller that is not in use.
  lemma FreeCaller(calls: map<Caller, Call>) returns (c: Caller)
    ensures c !in calls
  {
    c := 0;
    var rest := calls.Keys;
    while rest != {}
      invariant rest <= calls.Keys && forall d :: d in calls && d !in rest ==> d < c
    {
      var d :| d in rest;
      rest := rest - {d};
      c := if d >= c then d + 1 else c;
    }
  }

  // A name longer than all the given ones.
  lemma FreshName(names: seq<string>, other: string) returns (name: string)
    ensures name != "" && name !in names && name != other
  {
    name := other + "x";
    for i := 0 to |names|
      invariant |name| > |other| && forall j :: 0 <= j < i ==> |names[j]| < |name|
    {
      if |names[i]| >= |name| {
        name := names[i] + "x";
      }
    }
  }

  // A lookup of a cached token answers from the cache, whatever the registry says.
  lemma CachedAnswer(refs: set<string>, s0: State, s: State, token: Token)
    requires Leads(refs, s0, s) && token != 0 && token in s.byToken && s.byToken[token] != Uncached(refs, s, token)
    ensures GoesWrong(refs, s0)
  {
    var c := FreeCaller(s.calls);
    var t := Do(refs, s, Begin(c, token));
    LeadsVia(refs, s0, s, Begin(c, token));
    assert t.calls[c] == Call(token, Snapshot, {Uncached(refs, s, token)});
    var u := Do(refs, t, Advance(c));
    LeadsVia(refs, s0, t, Advance(c));
    assert u.calls[c].phase == Done(s.byToken[token]) && u.calls[c].answers == {Uncached(refs, s, token)};
    assert Wrong(u);
  }

  // New names are registered until the next one takes the given token.
  lemma {:induction false} FillUp(refs: set<string>, s0: State, s: State, reg: nat, token: Token, name: string)
    returns (t: State)
    requires Leads(refs, s0, s) && |Names(s, reg)| < token && name !in Names(s, reg)
    ensures Leads(refs, s0, t) && |Names(t, reg)| == token - 1 && name !in Names(t, reg)
    ensures t.byToken == s.byToken && t.labelReg == s.labelReg
    decreases token - |Names(s, reg)|
  {
    t := s;
    if |Names(s, reg)| < token - 1 {
      var filler := FreshName(Names(s, reg), name);
      LeadsVia(refs, s0, s, Register(reg, filler));
      t := Do(refs, s, Register(reg, filler));
      assert Names(t, reg) == Names(s, reg) + [filler];
      t := FillUp(refs, s0, t, reg, token, name);
    }
  }

  // A cached token without a name, while a reference label is not registered.
  lemma CachedGoesWrong(refs: set<string>, s0: State, s: State, reg: nat, token: Token, name: string)
    requires Leads(refs, s0, s) && s.labelReg == Some(reg) && token in s.byToken && |Names(s, reg)| < token
    requires name in refs && name != "" && name !in Names(s, reg)
    ensures GoesWrong(refs, s0)
  {
    if s.byToken[token] == Reference {
      CachedAnswer(refs, s0, s, token);
    } else {
      var t := FillUp(refs, s0, s, reg, token, name);
      LeadsVia(refs, s0, t, Register(reg, name));
      var u := Do(refs, t, Register(reg, name));
      assert Names(u, reg) == Names(t, reg) + [name];
      CachedAnswer(refs, s0, u, token);
    }
  }

  // A lookup that is about to store: with its registry wired, it fills the cache.
  lemma StoringGoesWrong(refs: set<string>, s: State, reg: nat, c: Caller, name: string)
    requires c in s.calls && s.calls[c].phase.Store? && s.calls[c].phase.reg == reg
    requires |Names(s, reg)| < s.calls[c].token
    requires name in refs && name != "" && name !in Names(s, reg)
    ensures GoesWrong(refs, s)
  {
    LeadsSelf(refs, s);
    var t := s;
    if s.labelReg != Some(reg) {
      LeadsVia(refs, s, s, SetLabelRegistry(Some(reg)));
      t := Do(refs, s, SetLabelRegistry(Some(reg)));
    }
    assert t.calls[c].phase == s.calls[c].phase && t.calls[c].token == s.calls[c].token;
    assert Names(t, reg) == Names(s, reg);
    LeadsVia(refs, s, t, Advance(c));
    CachedGoesWrong(refs, s, Do(refs, t, Advance(c)), reg, s.calls[c].token, name);
  }

  // A lookup that finds the token gone from a registry that is not wired.
  lemma AskingGoesWrong(refs: set<string>, s: State, reg: nat, c: Caller)
    requires c in s.calls && s.calls[c].phase == Resolve(reg) && |Names(s, reg)| < s.calls[c].token
    requires Event !in s.calls[c].answers
    ensures GoesWrong(refs, s)
  {
    LeadsSelf(refs, s);
    LeadsVia(refs, s, s, Advance(c));
    var t := Do(refs, s, Advance(c));
    assert t.calls[c].phase == Done(Event) && t.calls[c].answers == s.calls[c].answers;
    assert Wrong(t);
  }

  lemma UnsafeGoesWrong(refs: set<string>, s: State, reg: nat, keep: nat)
    requires Inv(refs, s) && keep <= |Names(s, reg)| && !SafeRollback(refs, s, reg, keep)
    ensures GoesWrong(refs, Do(refs, s, Rollback(reg, keep)))
  {
    var t := Do(refs, s, Rollback(reg, keep));
    assert Names(t, reg) == Names(s, reg)[..keep] && t.byToken == s.byToken && t.labelReg == s.labelReg;
    if c :| AskingBeyond(s, reg, keep, c) && Event !in s.calls[c].answers {
      assert CallOk(refs, s, s.calls[c]);
      assert Uncached(refs, t, s.calls[c].token) == Uncached(refs, s, s.calls[c].token);
      AskingGoesWrong(refs, t, reg, c);
    } else {
      var name :| name in refs && name != "" && name !in Names(t, reg);
      if token :| CachedBeyond(s, reg, keep, token) {
        LeadsSelf(refs, t);
        CachedGoesWrong(refs, t, t, reg, token, name);
      } else {
        var c :| StoringBeyond(s, reg, keep, c);
        StoringGoesWrong(refs, t, reg, c, name);
      }
    }
  }

  /** After a safe rollback no continuation without further rollbacks goes wrong. */
  lemma SafeStaysRight(refs: set<string>, s: State, step: Step, t: State)
    requires Inv(refs, s) && Safe(refs, s, step) && Leads(refs, Do(refs, s, step), t)
    ensures !Wrong(t)
  {
    var u := Do(refs, s, step);
    var steps :| NoRollback(steps) && Run(refs, u, steps) == t;
    InvStep(refs, s, step);
    RunInv(refs, u, steps);
    InvNotWrong(refs, t);
  }

  /**
   A rollback leads to a wrong answer if and only if it is not safe: exactly when it drops a token that is cached or
   about to be cached while some reference label is not among the names kept, or a token that a lookup is about to
   ask of a registry not wired any more, without an instant in that lookup at which the token was no reference.
  */
  lemma RollbackGoesWrongIff(refs: set<string>, s: State, reg: nat, keep: nat)
    requires Inv(refs, s) && keep <= |Names(s, reg)|
    ensures GoesWrong(refs, Do(refs, s, Rollback(reg, keep))) <==> !SafeRollback(refs, s, reg, keep)
  {
    if SafeRollback(refs, s, reg, keep) {
      forall t | Leads(refs, Do(refs, s, Rollback(reg, keep)), t)
        ensures !Wrong(t)
      {
        SafeStaysRight(refs, s, Rollback(reg, keep), t);
      }
    } else {
      UnsafeGoesWrong(refs, s, reg, keep);
    }
  }

  // ---------- what a caller can check ----------

  /** The token is not cached, and no running lookup asks for it. */
  ghost predicate Unclassified(s: State, token: Token) {
    token !in s.byToken && forall c :: Running(s, c) ==> s.calls[c].token != token
  }

  /** A token that is not looked up stays unclassified. */
  lemma UnclassifiedStays(refs: set<string>, s: State, step: Step, token: Token)
    requires Unclassified(s, token) && !(step.Begin? && step.token == token)
    ensures Unclassified(Do(refs, s, step), token)
  {
    var u := Do(refs, s, step);
    forall c | Running(u, c)
      ensures u.calls[c].token != token
    {
      StillRunning(refs, s, step, c);
    }
    if step.Advance? && step.c in s.calls {
      assert token !in AdvanceCall(refs, s, step.c).byToken;
    }
  }

  // A call that runs after a step ran before it, for the same token, or was begun by it.
  lemma StillRunning(refs: set<string>, s: State, step: Step, c: Caller)
    requires Running(Do(refs, s, step), c)
    ensures var token := Do(refs, s, step).calls[c].token;
            (Running(s, c) && s.calls[c].token == token) || step == Begin(c, token)
  {
    assert Running(Move(refs, s, step), c) && Move(refs, s, step).calls[c].token == Do(refs, s, step).calls[c].token;
  }

  lemma {:induction false} UnclassifiedRun(refs: set<string>, s: State, steps: seq<Step>, token: Token)
    requires Unclassified(s, token) && forall i :: 0 <= i < |steps| ==> !(steps[i].Begin? && steps[i].token == token)
    ensures Unclassified(Run(refs, s, steps), token)
    decreases |steps|
  {
    if steps != [] {
      UnclassifiedRun(refs, s, steps[..|steps| - 1], token);
      UnclassifiedStays(refs, Run(refs, s, steps[..|steps| - 1]), steps[|steps| - 1], token);
    }
  }

  /** Taking back tokens that were never classified since they were given out is safe. */
  lemma UnclassifiedIsSafe(refs: set<string>, s: State, reg: nat, keep: nat)
    requires keep <= |Names(s, reg)| && forall token :: token > keep ==> Unclassified(s, token)
    ensures SafeRollback(refs, s, reg, keep)
  {
    forall token: Token
      ensures !CachedBeyond(s, reg, keep, token)
    {
      assert token > keep ==> Unclassified(s, token);
    }
    forall c | c in s.calls && s.calls[c].token > keep
      ensures !Running(s, c)
    {
      assert Unclassified(s, s.calls[c].token);
    }
  }

  /** After any run whose rollbacks were safe, the next rollback can lead to a wrong answer if and only if it is not. */
  lemma NextRollbackGoesWrongIff(refs: set<string>, steps: seq<Step>, reg: nat, keep: nat)
    requires SafeRun(refs, Init(), steps) && keep <= |Names(Run(refs, Init(), steps), reg)|
    ensures var s := Run(refs, Init(), steps);
            GoesWrong(refs, Do(refs, s, Rollback(reg, keep))) <==> !SafeRollback(refs, s, reg, keep)
  {
    RunInv(refs, Init(), steps);
    RollbackGoesWrongIff(refs, Run(refs, Init(), steps), reg, keep);
  }

  // ---------- two runs that go wrong ----------

  /** Registry 0 is wired and has these names, the cache has these entries, and call 0 is as given. */
  ghost predicate Scene(s: State, cached: map<Token, Class>, names: seq<string>, call: Call) {
    && s.labelReg == Some(0) && s.byToken == cached && Names(s, 0) == names
    && 0 in s.calls && s.calls[0] == call && 1 !in s.calls
  }

  // One more step of a run from the start.
  lemma Then(refs: set<string>, steps: seq<Step>, step: Step) returns (more: seq<Step>)
    ensures Run(refs, Init(), more) == Do(refs, Run(refs, Init(), steps), step)
  {
    more := steps + [step];
    assert more[..|steps|] == steps;
  }

  // All names are taken back.
  lemma SceneEmptied(refs: set<string>, s: State, cached: map<Token, Class>, names: seq<string>, call: Call)
    requires Scene(s, cached, names, call) && Event in call.answers
    ensures Scene(Do(refs, s, Rollback(0, 0)), cached, [], call)
  {
    assert call.answers + {Event} == call.answers;
  }

  // The first token is given to a new label.
  lemma SceneNamed(refs: set<string>, s: State, cached: map<Token, Class>, call: Call, name: string)
    requires Scene(s, cached, [], call) && call.phase.Done? && name != ""
    ensures Scene(Do(refs, s, Register(0, name)), cached, [name], call)
  {
  }

  // A registry is wired, a label gets its first token, and a lookup of it is about to store what it found.
  lemma AboutToStore(refs: set<string>, name: string) returns (steps: seq<Step>)
    requires name != "" && name !in refs
    ensures Scene(Run(refs, Init(), steps), map[], [name], Call(1, Store(0, Event), {Event}))
  {
    steps := Then(refs, [], SetLabelRegistry(Some(0)));
    var s := Run(refs, Init(), steps);
    assert s.labelReg == Some(0) && s.byToken == map[] && Names(s, 0) == [] && 0 !in s.calls && 1 !in s.calls;
    steps := Then(refs, steps, Register(0, name));
    s := Run(refs, Init(), steps);
    assert s.labelReg == Some(0) && s.byToken == map[] && Names(s, 0) == [name] && 0 !in s.calls && 1 !in s.calls;
    steps := Then(refs, steps, Begin(0, 1));
    assert Scene(Run(refs, Init(), steps), map[], [name], Call(1, Snapshot, {Event}));
    steps := Then(refs, steps, Advance(0));
    assert Scene(Run(refs, Init(), steps), map[], [name], Call(1, Resolve(0), {Event}));
    steps := Then(refs, steps, Advance(0));
    assert Scene(Run(refs, Init(), steps), map[], [name], Call(1, Store(0, Event), {Event}));
  }

  // The first token is cached as an event and stands for a reference label by now: a new lookup answers wrongly.
  lemma StaleLookup(refs: set<string>, before: seq<Step>, call: Call, ref: string) returns (steps: seq<Step>)
    requires ref != "" && ref in refs && Scene(Run(refs, Init(), before), map[1 := Event], [ref], call)
    ensures var s := Run(refs, Init(), steps);
            1 in s.calls && s.calls[1] == Call(1, Done(Event), {Reference}) && Wrong(s)
  {
    steps := Then(refs, before, Begin(1, 1));
    var s := Run(refs, Init(), steps);
    assert s.calls[1] == Call(1, Snapshot, {Reference}) && s.byToken == map[1 := Event];
    steps := Then(refs, steps, Advance(1));
    assert Run(refs, Init(), steps).calls[1] == Call(1, Done(Event), {Reference});
  }

  /**
   A failed write takes its new label back without a swap: the class cached for it is inherited by the next label.
   The later lookup answers Event although the token stood for a reference label all through its call.
  */
  lemma StaleClassInherited(refs: set<string>, name: string, ref: string) returns (steps: seq<Step>)
    requires name != "" && name !in refs && ref != "" && ref in refs
    ensures var s := Run(refs, Init(), steps);
            1 in s.calls && s.calls[1] == Call(1, Done(Event), {Reference}) && Wrong(s)
  {
    var call := Call(1, Done(Event), {Event});
    steps := AboutToStore(refs, name);
    steps := Then(refs, steps, Advance(0));
    assert Scene(Run(refs, Init(), steps), map[1 := Event], [name], call);
    SceneEmptied(refs, Run(refs, Init(), steps), map[1 := Event], [name], call);
    steps := Then(refs, steps, Rollback(0, 0));
    SceneNamed(refs, Run(refs, Init(), steps), map[1 := Event], call, ref);
    steps := Then(refs, steps, Register(0, ref));
    steps := StaleLookup(refs, steps, call, ref);
  }

  /**
   A transaction's rollback empties the cache by installing the same registry again: a lookup that was about to
   store passes its check all the same and fills the emptied cache with the class of the label taken back.
  */
  lemma FlushedCacheRefilled(refs: set<string>, name: string, ref: string) returns (steps: seq<Step>)
    requires name != "" && name !in refs && ref != "" && ref in refs
    ensures var s := Run(refs, Init(), steps);
            1 in s.byToken && s.byToken[1] == Event && Uncached(refs, s, 1) == Reference
  {
    var storing, call := Call(1, Store(0, Event), {Event}), Call(1, Done(Event), {Event});
    steps := AboutToStore(refs, name);
    SceneEmptied(refs, Run(refs, Init(), steps), map[], [name], storing);
    steps := Then(refs, steps, Rollback(0, 0));
    steps := Then(refs, steps, SetLabelRegistry(Some(0)));
    assert Scene(Run(refs, Init(), steps), map[], [], storing);
    steps := Then(refs, steps, Advance(0));
    assert Scene(Run(refs, Init(), steps), map[1 := Event], [], call);
    SceneNamed(refs, Run(refs, Init(), steps), map[1 := Event], call, ref);
    steps := Then(refs, steps, Register(0, ref));
  }
}
