/**
 What a single lookup, swap, registration and rollback does, in plain terms, and that a lookup left alone
 completes with the uncached answer and remembers it.
*/
module OntologyLookups {
  import opened Options
  import opened OntologyCache

  // ---------- answers ----------

  /** A token is a reference if and only if the wired registry gives it a reference name; names are numbered from 1. */
  lemma AnswerIs(refs: set<string>, s: State, token: Token)
    ensures Uncached(refs, s, token) == Reference <==>
            && s.labelReg.Some? && s.labelReg.value in s.registries
            && 1 <= token <= |s.registries[s.labelReg.value]|
            && s.registries[s.labelReg.value][token - 1] != "" && s.registries[s.labelReg.value][token - 1] in refs
    ensures Uncached(refs, s, token) != Reference ==> Uncached(refs, s, token) == Event
  {
  }

  /** A new name gets the next token; the tokens given out before keep their names. */
  lemma NameRegistered(refs: set<string>, s: State, reg: nat, name: string)
    requires reg in s.registries && name != "" && name !in s.registries[reg]
    ensures var t, n := Move(refs, s, Register(reg, name)), |s.registries[reg]|;
            && t == s.(registries := s.registries[reg := s.registries[reg] + [name]])
            && Lookup(t, reg, n + 1) == name && forall token :: 1 <= token <= n ==>
              Lookup(t, reg, token) == s.registries[reg][token - 1]
  {
  }

  /** The first name opens a registry; an empty or known name changes nothing. */
  lemma OtherRegistrations(refs: set<string>, s: State, reg: nat, name: string)
    ensures reg !in s.registries && name != "" ==>
            Move(refs, s, Register(reg, name)) == s.(registries := s.registries[reg := [name]])
    ensures name == "" || (reg in s.registries && name in s.registries[reg]) ==> Move(refs, s, Register(reg, name)) == s
  {
    assert [] + [name] == [name];
  }

  /** A rollback keeps the first names and touches neither the cache nor the calls. */
  lemma RolledBack(refs: set<string>, s: State, reg: nat, keep: nat)
    requires reg in s.registries && keep <= |s.registries[reg]|
    ensures Move(refs, s, Rollback(reg, keep)) == s.(registries := s.registries[reg := s.registries[reg][..keep]])
  {
  }

  /** A swap wires the registry and empties the cache. */
  lemma Swapped(refs: set<string>, s: State, next: Option<nat>)
    ensures Move(refs, s, SetLabelRegistry(next)) == State(map[], next, s.registries, s.calls)
  {
  }

  // ---------- one lookup ----------

  /** The cache is read first; token 0 and a missing registry answer at once. */
  lemma FirstLook(refs: set<string>, s: State, c: Caller)
    requires c in s.calls && s.calls[c].phase.Snapshot?
    ensures var t, token := Move(refs, s, Advance(c)), s.calls[c].token;
            && t.byToken == s.byToken && t.registries == s.registries && t.labelReg == s.labelReg
            && t.calls[c].phase ==
               if token == 0 then Done(Event)
               else if token in s.byToken then Done(s.byToken[token])
               else if s.labelReg.None? then Done(Event)
               else Resolve(s.labelReg.value)
  {
  }

  /** What was found is stored only if the registry is still the wired one; otherwise the lookup starts over. */
  lemma LastLook(refs: set<string>, s: State, c: Caller)
    requires c in s.calls && s.calls[c].phase.Store?
    ensures var t, call := Move(refs, s, Advance(c)), s.calls[c];
            && t.registries == s.registries && t.labelReg == s.labelReg
            && (s.labelReg == Some(call.phase.reg) ==>
                t.byToken == s.byToken[call.token := call.phase.found] && t.calls[c].phase == Done(call.phase.found))
            && (s.labelReg != Some(call.phase.reg) ==> t.byToken == s.byToken && t.calls[c].phase == Snapshot)
  {
  }

  /** Three moves of the caller with nothing in between. */
  function Alone(refs: set<string>, s: State, c: Caller): State {
    Do(refs, Do(refs, Do(refs, s, Advance(c)), Advance(c)), Advance(c))
  }

  lemma DoneStays(refs: set<string>, s: State, c: Caller)
    requires c in s.calls && s.calls[c].phase.Done?
    ensures var t := Do(refs, s, Advance(c));
            c in t.calls && t.calls[c] == s.calls[c] && t.byToken == s.byToken
  {
  }

  /** A token of the wired registry that is not cached: the lookup finds its class and caches it. */
  lemma MissIsCached(refs: set<string>, s: State, c: Caller)
    requires c in s.calls && s.calls[c].phase.Snapshot? && s.calls[c].token !in s.byToken && s.labelReg.Some?
    requires Lookup(s, s.labelReg.value, s.calls[c].token) != ""
    ensures var t, token := Alone(refs, s, c), s.calls[c].token;
            && c in t.calls && t.calls[c].phase == Done(Uncached(refs, s, token))
            && t.byToken == s.byToken[token := Uncached(refs, s, token)]
  {
    var reg, token := s.labelReg.value, s.calls[c].token;
    var resolving := Do(refs, s, Advance(c));
    assert resolving.calls[c].phase == Resolve(reg) && resolving.calls[c].token == token;
    var storing := Do(refs, resolving, Advance(c));
    assert storing.calls[c].phase == Store(reg, Uncached(refs, s, token)) && storing.calls[c].token == token;
  }

  /** Otherwise the cache stays as it is. */
  lemma OtherLookups(refs: set<string>, s: State, c: Caller)
    requires c in s.calls && s.calls[c].phase.Snapshot?
    requires var token := s.calls[c].token;
             token == 0 || token in s.byToken || s.labelReg.None? || Lookup(s, s.labelReg.value, token) == ""
    ensures var t, token := Alone(refs, s, c), s.calls[c].token;
            && c in t.calls && t.byToken == s.byToken
            && t.calls[c].phase == Done(if token != 0 && token in s.byToken then s.byToken[token] else Event)
  {
    var first := Do(refs, s, Advance(c));
    if first.calls[c].phase.Done? {
      DoneStays(refs, first, c);
      DoneStays(refs, Do(refs, first, Advance(c)), c);
    } else {
      var second := Do(refs, first, Advance(c));
      assert second.calls[c].phase == Done(Event);
      DoneStays(refs, second, c);
    }
  }

  /** A lookup left alone ends with the uncached answer, whether or not it found it in the cache. */
  lemma AloneIsUncached(refs: set<string>, s: State, c: Caller)
    requires Inv(refs, s) && c in s.calls && s.calls[c].phase.Snapshot?
    ensures var t := Alone(refs, s, c);
            c in t.calls && t.calls[c].phase == Done(Uncached(refs, s, s.calls[c].token))
  {
    var token := s.calls[c].token;
    if token !in s.byToken && s.labelReg.Some? && Lookup(s, s.labelReg.value, token) != "" {
      MissIsCached(refs, s, c);
    } else {
      OtherLookups(refs, s, c);
    }
  }
}
