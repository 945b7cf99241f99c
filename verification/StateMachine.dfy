/** The configurable state machine of pkg/task/sm_factory.go. */
module StateMachine {

  type State = string

  datatype Option<+T> = None | Some(value: T)

  datatype StateConfig = StateConfig(autoRetry: bool, maxRetries: int, retryToState: State)

  datatype Transition = Transition(from: State, to: State, allowed: bool)

  datatype Config = Config(
    initialState: State,
    terminalStates: seq<State>,
    states: map<State, StateConfig>,
    transitions: seq<Transition>)
  {
    predicate IsTerminal(s: State) {
      s in terminalStates
    }

    predicate IsAllowed(from: State, to: State) {
      Transition(from, to, true) in transitions
    }

    /** The state an automatic retry out of `s` goes to. */
    function RetryTarget(s: State): State
      requires s in states
    {
      if states[s].retryToState == "" then initialState else states[s].retryToState
    }
  }
}
