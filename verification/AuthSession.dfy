/**
 The authentication contract the tunnel is written against. An implementation is
 any state type with any behaviour: a function from the state and the challenge
 to the next state and an outcome. Hidden inputs (a ticket cache, a clock) are
 part of the state.
 */
module AuthSession {
  import opened Wrappers

  /** `Ok(Some(header))`, `Ok(None)` and `Err(reason)`. */
  datatype StepOutcome = Token(header: string) | NoHeader | Failed(reason: string)

  type Behaviour<!S> = (S, Option<string>) -> (S, StepOutcome)

  class Session<S> {
    var state: S
    const behaviour: Behaviour<S>

    constructor (behaviour: Behaviour<S>, initial: S)
      ensures this.behaviour == behaviour && state == initial
    {
      this.behaviour, state := behaviour, initial;
    }

    /** Process a challenge and advance. */
    method Step(challenge: Option<string>) returns (outcome: StepOutcome)
      modifies this
      ensures (state, outcome) == behaviour(old(state), challenge)
    {
      var next := behaviour(state, challenge);
      state, outcome := next.0, next.1;
    }
  }
}
