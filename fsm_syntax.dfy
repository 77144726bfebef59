/**
 * The parsed form of a state-machine description, as the parser hands it to
 * the semantic analyzer. `null` fields of the parser's records are `None`.
 */
module FsmSyntax {
  import opened Wrappers

  /** A `name: value` header line; a fresh header has neither. */
  datatype Header = Header(name: Option<string>, value: Option<string>)

  const NullHeader := Header(None, None)

  /** The state part of one logic entry: `(name) : super <entry >exit`. */
  datatype StateSpec = StateSpec(
    name: string,
    superStates: seq<string>,
    entryActions: seq<string>,
    exitActions: seq<string>,
    isAbstractState: bool)

  /** `event nextState {actions}`; `-` for the event or the next state is `None`. */
  datatype SubTransition = SubTransition(event: Option<string>, nextState: Option<string>, actions: seq<string>)

  datatype Transition = Transition(state: StateSpec, subTransitions: seq<SubTransition>)

  datatype FsmSyntax = FsmSyntax(headers: seq<Header>, logic: seq<Transition>)
}
