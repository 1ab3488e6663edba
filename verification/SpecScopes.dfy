/** The state bitmask of the specification parser. */
module SpecScopes {
  const INITIAL: bv16 := 1
  const SPEC: bv16 := 2
  const SCENARIO: bv16 := 4
  const COMMENT: bv16 := 8
  const TABLE: bv16 := 16
  const TABLE_DATA: bv16 := 32
  const STEP: bv16 := 64
  const CONTEXT: bv16 := 128
  const CONCEPT: bv16 := 256
  const KEYWORD: bv16 := 512

  predicate IsInState(state: bv16, states: bv16) { states & state != 0 }

  function RetainStates(state: bv16, states: bv16): bv16 { states & state }

  function AddStates(state: bv16, states: bv16): bv16 { states | state }

  /** The scopes that the converters ask for. */
  datatype Scopes = Scopes(spec: bool, scenario: bool, table: bool, step: bool, context: bool)

  function ScopesOf(state: bv16): Scopes {
    Scopes(IsInState(state, SPEC), IsInState(state, SCENARIO), IsInState(state, TABLE), IsInState(state, STEP),
           IsInState(state, CONTEXT))
  }

  function AfterSpec(state: bv16): bv16 { AddStates(state, SPEC) }

  function AfterScenario(state: bv16): bv16 { AddStates(RetainStates(state, SPEC), SCENARIO) }

  function AfterStep(state: bv16): bv16 { AddStates(RetainStates(state, SPEC | SCENARIO), STEP) }

  function AfterContext(state: bv16): bv16 { AddStates(RetainStates(state, SPEC), CONTEXT) }

  function AfterComment(state: bv16): bv16 { AddStates(RetainStates(state, SPEC | SCENARIO), COMMENT) }

  function AfterKeyword(state: bv16): bv16 { AddStates(RetainStates(state, SPEC), KEYWORD) }

  function AfterHeader(state: bv16): bv16 { AddStates(RetainStates(state, SPEC | SCENARIO | STEP | CONTEXT), TABLE) }

  function AfterRow(state: bv16): bv16 { RetainStates(state, SPEC | SCENARIO | STEP | CONTEXT | TABLE) }

  /** What each change of the bitmask does to the scopes. A `table:` keyword leaves the scenario. */
  lemma {:induction false} Transitions(state: bv16)
    ensures var s := ScopesOf(state);
            && ScopesOf(AfterSpec(state)) == s.(spec := true)
            && ScopesOf(AfterScenario(state)) == Scopes(s.spec, true, false, false, false)
            && ScopesOf(AfterStep(state)) == Scopes(s.spec, s.scenario, false, true, false)
            && ScopesOf(AfterContext(state)) == Scopes(s.spec, false, false, false, true)
            && ScopesOf(AfterComment(state)) == Scopes(s.spec, s.scenario, false, false, false)
            && ScopesOf(AfterKeyword(state)) == Scopes(s.spec, false, false, false, false)
            && ScopesOf(AfterHeader(state)) == s.(table := true)
            && ScopesOf(AfterRow(state)) == s
  {
  }

  lemma {:induction false} NoScopes()
    ensures ScopesOf(INITIAL) == Scopes(false, false, false, false, false)
  {
  }
}
