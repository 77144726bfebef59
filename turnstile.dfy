/**
 * The table-driven turnstile: a fixed table of rows (from, event, to,
 * action); an event takes the first row for the current state and that
 * event, moves the turnstile to the row's target and then performs the row's
 * action.
 */
module TableDrivenTurnstile {

  datatype State = Locked | Unlocked
  datatype Event = Coin | Pass
  datatype Action = Lock | Unlock | Alarm | Thankyou

  /** `Transition`: one row of the table. */
  datatype Transition = Transition(from: State, event: Event, to: State, action: Action)

  /** The table `TableDrivenTurnstileFSM` is built with, in row order. */
  const Table: seq<Transition> := [
    Transition(Locked, Coin, Unlocked, Unlock),
    Transition(Locked, Pass, Locked, Alarm),
    Transition(Unlocked, Coin, Unlocked, Thankyou),
    Transition(Unlocked, Pass, Locked, Lock)
  ]

  /** What `handleEvent` reports: done, or `InvalidTransitionError`. */
  datatype Outcome = Handled | InvalidTransitionError(from: State, event: Event)

  predicate Matches(t: Transition, s: State, e: Event)
  {
    t.from == s && t.event == e
  }

  /** `transitions.find(...)`: the index of the first row for `s` and `e`, or |table| when there is none. */
  function FindRow(table: seq<Transition>, s: State, e: Event): (i: nat)
    ensures i <= |table|
    ensures i < |table| ==> Matches(table[i], s, e)
    ensures forall j :: 0 <= j < i ==> !Matches(table[j], s, e)
  {
    if table == [] then 0
    else if Matches(table[0], s, e) then 0
    else 1 + FindRow(table[1..], s, e)
  }

  /** The turnstile the machine drives; it records each action with the state it is in when asked to perform it. */
  class Turnstile {
    var state: State
    var performed: seq<(Action, State)>

    constructor(state: State)
      ensures this.state == state && performed == []
    {
      this.state := state;
      performed := [];
    }

    /** `performAction`. */
    method PerformAction(action: Action)
      modifies this
      ensures state == old(state) && performed == old(performed) + [(action, state)]
    {
      performed := performed + [(action, state)];
    }
  }

  class TableDrivenTurnstileFSM {
    var transitions: seq<Transition>
    const turnstile: Turnstile

    constructor(turnstile: Turnstile)
      ensures transitions == Table && this.turnstile == turnstile
    {
      transitions := Table;
      this.turnstile := turnstile;
    }

    /**
     * `handleEvent`: with a row for the current state and the event, the
     * turnstile moves to its target and then performs its action; without
     * one nothing changes and the error is reported.
     */
    method HandleEvent(event: Event) returns (r: Outcome)
      modifies turnstile
      ensures var i := FindRow(transitions, old(turnstile.state), event);
        if i < |transitions| then
          r == Handled && turnstile.state == transitions[i].to &&
          turnstile.performed == old(turnstile.performed) + [(transitions[i].action, transitions[i].to)]
        else
          r == InvalidTransitionError(old(turnstile.state), event) &&
          turnstile.state == old(turnstile.state) && turnstile.performed == old(turnstile.performed)
    {
      var i := FindRow(transitions, turnstile.state, event);
      if i == |transitions| {
        return InvalidTransitionError(turnstile.state, event);
      }
      var transition := transitions[i];
      turnstile.state := transition.to;
      turnstile.PerformAction(transition.action);
      r := Handled;
    }
  }

  /** The turnstile's behaviour written as a case split, independently of the table. */
  function Next(s: State, e: Event): (r: (State, Action))
    ensures r.0 == (if e == Coin then Unlocked else Locked)
    ensures r.0 == s <==> r.1 == Alarm || r.1 == Thankyou
  {
    match (s, e)
    case (Locked, Coin) => (Unlocked, Unlock)
    case (Locked, Pass) => (Locked, Alarm)
    case (Unlocked, Coin) => (Unlocked, Thankyou)
    case (Unlocked, Pass) => (Locked, Lock)
  }

  /** The table has a row for every state and event, and that row is the one `Next` describes. */
  lemma TableIsNext(s: State, e: Event)
    ensures FindRow(Table, s, e) < |Table|
    ensures var t := Table[FindRow(Table, s, e)]; (t.to, t.action) == Next(s, e)
  {
    assert Table[0] == Transition(Locked, Coin, Unlocked, Unlock);
    assert Table[1] == Transition(Locked, Pass, Locked, Alarm);
    assert Table[2] == Transition(Unlocked, Coin, Unlocked, Thankyou);
    assert Table[3] == Transition(Unlocked, Pass, Locked, Lock);
  }

  /** No state and event occur in two rows, so the first matching row is the only one. */
  lemma TableDeterministic()
    ensures forall i, j :: 0 <= i < j < |Table| ==> !Matches(Table[j], Table[i].from, Table[i].event)
  {
  }
}
