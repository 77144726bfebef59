/**
 * The `SuperClassCrawler`: for every concrete state, the transitions of its
 * whole super-state hierarchy are walked super-states first, remembering per
 * event the transition that currently wins. A later transition for the same
 * event with a different outcome may override the earlier one only when it
 * is declared in a state below the earlier one's state; otherwise the
 * conflict is reported as `CONFLICTING_SUPERSTATES`.
 */
module SuperClassCrawling {
  import opened Wrappers
  import opened AnalysisErrors
  import opened SemanticStateMachines
  import opened AnalyzerChecks
  import opened AnalyzerCompile
  import opened OrderedSets

  /** `TransitionTuple`: the defining state's name, the event, the next state's name and the actions. */
  datatype TransitionTuple = TransitionTuple(currentState: string, event: string, nextState: string, actions: seq<string>)

  /** The crawler's changing state: the winning tuple per event, and the machine's errors. */
  datatype Crawl = Crawl(tuples: map<string, TransitionTuple>, errors: seq<AnalysisError>)

  ghost predicate Crawlable(states: seq<SemanticState>, rank: seq<nat>)
  {
    RefsInRange(states) && Ranked(states, rank)
  }

  /** The tuple for transition `tr` of state `s`; a null event or next state is "". */
  function TupleOf(states: seq<SemanticState>, s: nat, tr: SemanticTransition): (t: TransitionTuple)
    requires s < |states| && (tr.nextState.Some? ==> tr.nextState.value < |states|)
    ensures t.currentState == states[s].name && t.actions == tr.actions
    ensures t.event == (if tr.event.Some? then tr.event.value else "")
    ensures t.nextState == (if tr.nextState.Some? then states[tr.nextState.value].name else "")
  {
    TransitionTuple(states[s].name, tr.event.GetOr(""), if tr.nextState.Some? then states[tr.nextState.value].name else "", tr.actions)
  }

  /** `transitionsHaveSameOutcomes`: same next state and the same actions in the same order. */
  predicate SameOutcomes(t1: TransitionTuple, t2: TransitionTuple): (r: bool)
    ensures r <==> t1.(currentState := t2.currentState, event := t2.event) == t2
  {
    t1.nextState == t2.nextState && t1.actions == t2.actions
  }

  function ConflictError(concrete: string, event: string): AnalysisError
  {
    Err(ConflictingSuperstates, concrete + "|" + event)
  }

  /** The earlier definition may be overridden from `s`: its state is found and is `s` or above it. */
  predicate MayOverride(states: seq<SemanticState>, rank: seq<nat>, s: nat, previous: TransitionTuple): (r: bool)
    requires Crawlable(states, rank) && s < |states|
    ensures r ==> previous.currentState in Names(states)
  {
    var d := Lookup(Names(states), previous.currentState);
    d.Some? && IsSuperStateOf(states, s, d.value, rank)
  }

  /**
   * An override is allowed exactly when the earlier definition's state is
   * found and lies on a super-state path from `s` (it is `s` or above it).
   */
  lemma MayOverrideMeaning(states: seq<SemanticState>, rank: seq<nat>, s: nat, previous: TransitionTuple)
    requires Crawlable(states, rank) && s < |states|
    ensures var d := Lookup(Names(states), previous.currentState);
      MayOverride(states, rank, s, previous) <==> d.Some? && Reaches(states, s, d.value)
  {
    var d := Lookup(Names(states), previous.currentState);
    if d.Some? {
      IsSuperStateOfIsReachability(states, s, d.value, rank);
    }
  }

  /** `checkTransitionForPreviousDefinition` and what it calls, for one transition. */
  function Step(states: seq<SemanticState>, rank: seq<nat>, concrete: string, c: Crawl, s: nat, tr: SemanticTransition): (r: Crawl)
    requires Crawlable(states, rank) && s < |states| && (tr.nextState.Some? ==> tr.nextState.value < |states|)
    ensures r.errors == c.errors || r.errors == c.errors + [ConflictError(concrete, TupleOf(states, s, tr).event)]
  {
    var t := TupleOf(states, s, tr);
    if t.event !in c.tuples then c.(tuples := c.tuples[t.event := t])
    else if SameOutcomes(t, c.tuples[t.event]) then c
    else if MayOverride(states, rank, s, c.tuples[t.event]) then c.(tuples := c.tuples[t.event := t])
    else c.(errors := c.errors + [ConflictError(concrete, t.event)])
  }

  /** The first `n` transitions of state `s`, in order. */
  function StepAll(states: seq<SemanticState>, rank: seq<nat>, concrete: string, c: Crawl, s: nat, n: nat): Crawl
    requires Crawlable(states, rank) && s < |states| && n <= |states[s].transitions|
  {
    if n == 0 then c
    else Step(states, rank, concrete, StepAll(states, rank, concrete, c, s, n - 1), s, states[s].transitions[n - 1])
  }

  /** The order `checkTransitionsForState(s)` visits states in: each super-state's walk in turn, then `s`. */
  function Visits(states: seq<SemanticState>, s: nat, ghost rank: seq<nat>): (r: seq<nat>)
    requires Crawlable(states, rank) && s < |states|
    ensures |r| > 0 && r[|r| - 1] == s
    ensures forall i :: 0 <= i < |r| ==> r[i] < |states|
    decreases rank[s], 1, 0
  {
    SuperVisits(states, s, |states[s].superStates|, rank) + [s]
  }

  /** The walks of the first `n` super-states of `s`, concatenated. */
  function SuperVisits(states: seq<SemanticState>, s: nat, n: nat, ghost rank: seq<nat>): (r: seq<nat>)
    requires Crawlable(states, rank) && s < |states| && n <= |states[s].superStates|
    ensures forall i :: 0 <= i < |r| ==> r[i] < |states|
    decreases rank[s], 0, n
  {
    if n == 0 then []
    else SuperVisits(states, s, n - 1, rank) + Visits(states, states[s].superStates[n - 1], rank)
  }

  /** Every transition of every visited state, in visiting order. */
  function StepVisits(states: seq<SemanticState>, rank: seq<nat>, concrete: string, c: Crawl, vs: seq<nat>): Crawl
    requires Crawlable(states, rank) && forall i :: 0 <= i < |vs| ==> vs[i] < |states|
  {
    if vs == [] then c
    else
      var v := vs[|vs| - 1];
      StepAll(states, rank, concrete, StepVisits(states, rank, concrete, c, vs[..|vs| - 1]), v, |states[v].transitions|)
  }

  /** `checkSuperClassTransitions` over the first `n` states: a fresh tuple map for every concrete state. */
  function CrawlStates(states: seq<SemanticState>, rank: seq<nat>, errors: seq<AnalysisError>, n: nat): (r: seq<AnalysisError>)
    requires Crawlable(states, rank) && n <= |states|
    ensures |errors| <= |r| && r[..|errors|] == errors
  {
    if n == 0 then errors
    else
      var before := CrawlStates(states, rank, errors, n - 1);
      CrawlStateConflicts(states, rank, before, n - 1);
      var after := CrawlState(states, rank, before, n - 1);
      assert after[..|errors|] == after[..|before|][..|errors|];
      after
  }

  /** The errors after crawling state `s` with a fresh tuple map; an abstract state is skipped. */
  function CrawlState(states: seq<SemanticState>, rank: seq<nat>, before: seq<AnalysisError>, s: nat): seq<AnalysisError>
    requires Crawlable(states, rank) && s < |states|
  {
    if states[s].isAbstractState then before
    else StepVisits(states, rank, states[s].name, Crawl(map[], before), Visits(states, s, rank)).errors
  }

  // ---------------------------------------------------------------------
  // The crawler as the source writes it

  class SuperClassCrawler {
    const machine: SemanticStateMachine
    var concreteState: Option<nat>
    var transitionTuples: map<string, TransitionTuple>

    constructor(m: SemanticStateMachine)
      ensures machine == m && concreteState.None? && transitionTuples == map[]
    {
      machine := m;
      concreteState := None;
      transitionTuples := map[];
    }

    function Current(): Crawl
      reads this, machine
    {
      Crawl(transitionTuples, machine.errors)
    }

    /** The machine keeps everything but its errors. */
    twostate predicate OnlyErrorsChanged()
      reads this, machine
    {
      machine.warnings == old(machine.warnings) && machine.states == old(machine.states) &&
      machine.events == old(machine.events) && machine.actions == old(machine.actions) &&
      machine.initialState == old(machine.initialState) && machine.actionClass == old(machine.actionClass) &&
      machine.fsmName == old(machine.fsmName)
    }

    /** `${this.concreteState?.name}`: the concrete state's name, or "undefined" before one is chosen. */
    function ConcreteName(): (r: string)
      reads this, machine
      requires concreteState.Some? ==> concreteState.value < |machine.states|
      ensures concreteState.Some? ==> r == machine.states[concreteState.value].name
      ensures concreteState.None? ==> r == "undefined"
    {
      if concreteState.Some? then machine.states[concreteState.value].name else "undefined"
    }

    method CheckSuperClassTransitions(ghost rank: seq<nat>)
      requires Crawlable(machine.states, rank)
      modifies this, machine
      ensures OnlyErrorsChanged()
      ensures machine.errors == CrawlStates(machine.states, rank, old(machine.errors), |machine.states|)
    {
      assert this as object != machine as object;
      var i := 0;
      while i < |machine.states|
        invariant 0 <= i <= |machine.states|
        invariant OnlyErrorsChanged()
        invariant machine.errors == CrawlStates(machine.states, rank, old(machine.errors), i)
      {
        CheckConcreteState(i, rank);
        i := i + 1;
      }
    }

    /** The body of the loop in `checkSuperClassTransitions`: a concrete state is crawled with no tuples yet. */
    method CheckConcreteState(i: nat, ghost rank: seq<nat>)
      requires Crawlable(machine.states, rank) && i < |machine.states|
      modifies this, machine
      ensures OnlyErrorsChanged()
      ensures machine.errors == CrawlState(machine.states, rank, old(machine.errors), i)
    {
      if !machine.states[i].isAbstractState {
        concreteState := Some(i);
        transitionTuples := map[];
        CheckTransitionsForState(i, rank);
      }
    }

    method CheckTransitionsForState(s: nat, ghost rank: seq<nat>)
      requires Crawlable(machine.states, rank) && s < |machine.states|
      requires concreteState.Some? && concreteState.value < |machine.states|
      modifies this, machine
      ensures OnlyErrorsChanged()
      ensures concreteState == old(concreteState)
      ensures Current() == StepVisits(machine.states, rank, ConcreteName(), old(Current()), Visits(machine.states, s, rank))
      decreases rank[s], 1
    {
      CheckSuperStates(s, rank);
      CheckStateForPreviouslyDefinedTransition(s, rank);
      VisitsLast(machine.states, rank, ConcreteName(), old(Current()), s);
    }

    /** The loop of `checkTransitionsForState` over the super states of `s`, each walked first. */
    method CheckSuperStates(s: nat, ghost rank: seq<nat>)
      requires Crawlable(machine.states, rank) && s < |machine.states|
      requires concreteState.Some? && concreteState.value < |machine.states|
      modifies this, machine
      ensures OnlyErrorsChanged()
      ensures concreteState == old(concreteState)
      ensures Current() == StepVisits(machine.states, rank, ConcreteName(), old(Current()),
        SuperVisits(machine.states, s, |machine.states[s].superStates|, rank))
      decreases rank[s], 0
    {
      var sups := machine.states[s].superStates;
      var i := 0;
      while i < |sups|
        invariant 0 <= i <= |sups| && concreteState == old(concreteState)
        invariant OnlyErrorsChanged()
        invariant Current() == StepVisits(machine.states, rank, ConcreteName(), old(Current()), SuperVisits(machine.states, s, i, rank))
      {
        SuperBelow(machine.states, rank, s, i);
        CheckTransitionsForState(sups[i], rank);
        SuperVisitsStep(machine.states, rank, ConcreteName(), old(Current()), s, i);
        i := i + 1;
      }
    }

    method CheckStateForPreviouslyDefinedTransition(s: nat, ghost rank: seq<nat>)
      requires Crawlable(machine.states, rank) && s < |machine.states|
      requires concreteState.Some? && concreteState.value < |machine.states|
      modifies this, machine
      ensures OnlyErrorsChanged()
      ensures concreteState == old(concreteState)
      ensures Current() == StepAll(machine.states, rank, ConcreteName(), old(Current()), s, |machine.states[s].transitions|)
    {
      var ts := machine.states[s].transitions;
      var i := 0;
      while i < |ts|
        invariant 0 <= i <= |ts| && concreteState == old(concreteState)
        invariant OnlyErrorsChanged()
        invariant Current() == StepAll(machine.states, rank, ConcreteName(), old(Current()), s, i)
      {
        CheckTransitionForPreviousDefinition(s, ts[i], rank);
        i := i + 1;
      }
    }

    method CheckTransitionForPreviousDefinition(s: nat, st: SemanticTransition, ghost rank: seq<nat>)
      requires Crawlable(machine.states, rank) && s < |machine.states|
      requires st.nextState.Some? ==> st.nextState.value < |machine.states|
      requires concreteState.Some? && concreteState.value < |machine.states|
      modifies this, machine
      ensures OnlyErrorsChanged()
      ensures concreteState == old(concreteState)
      ensures Current() == Step(machine.states, rank, ConcreteName(), old(Current()), s, st)
    {
      var thisTuple := TupleOf(machine.states, s, st);
      if thisTuple.event in transitionTuples {
        DetermineIfThePreviousDefinitionIsAnError(s, thisTuple, rank);
      } else {
        transitionTuples := transitionTuples[thisTuple.event := thisTuple];
      }
    }

    method DetermineIfThePreviousDefinitionIsAnError(s: nat, thisTuple: TransitionTuple, ghost rank: seq<nat>)
      requires Crawlable(machine.states, rank) && s < |machine.states|
      requires concreteState.Some? && concreteState.value < |machine.states|
      requires thisTuple.event in transitionTuples
      modifies this, machine
      ensures OnlyErrorsChanged()
      ensures concreteState == old(concreteState)
      ensures var previous := old(transitionTuples)[thisTuple.event];
        if SameOutcomes(thisTuple, previous) then Current() == old(Current())
        else if MayOverride(machine.states, rank, s, previous) then
          Current() == Crawl(old(transitionTuples)[thisTuple.event := thisTuple], old(machine.errors))
        else Current() == Crawl(old(transitionTuples), old(machine.errors) + [ConflictError(ConcreteName(), thisTuple.event)])
    {
      var previousTuple := transitionTuples[thisTuple.event];
      if !SameOutcomes(thisTuple, previousTuple) {
        CheckForOverriddenTransition(s, thisTuple, previousTuple, rank);
      }
    }

    method CheckForOverriddenTransition(s: nat, thisTuple: TransitionTuple, previousTuple: TransitionTuple, ghost rank: seq<nat>)
      requires Crawlable(machine.states, rank) && s < |machine.states|
      requires concreteState.Some? && concreteState.value < |machine.states|
      modifies this, machine
      ensures OnlyErrorsChanged()
      ensures concreteState == old(concreteState)
      ensures MayOverride(machine.states, rank, s, previousTuple) ==>
        Current() == Crawl(old(transitionTuples)[thisTuple.event := thisTuple], old(machine.errors))
      ensures !MayOverride(machine.states, rank, s, previousTuple) ==>
        Current() == Crawl(old(transitionTuples), old(machine.errors) + [ConflictError(ConcreteName(), thisTuple.event)])
    {
      var definingState := Lookup(Names(machine.states), previousTuple.currentState);
      if !(definingState.Some? && IsSuperStateOf(machine.states, s, definingState.value, rank)) {
        machine.AddError(ConflictError(ConcreteName(), thisTuple.event));
      } else {
        transitionTuples := transitionTuples[thisTuple.event := thisTuple];
      }
    }
  }

  // ---------------------------------------------------------------------
  // Properties

  lemma {:induction false} StepVisitsAppend(states: seq<SemanticState>, rank: seq<nat>, concrete: string, c: Crawl, a: seq<nat>, b: seq<nat>)
    requires Crawlable(states, rank)
    requires forall i :: 0 <= i < |a| ==> a[i] < |states|
    requires forall i :: 0 <= i < |b| ==> b[i] < |states|
    ensures forall i :: 0 <= i < |a + b| ==> (a + b)[i] < |states|
    ensures StepVisits(states, rank, concrete, c, a + b) ==
      StepVisits(states, rank, concrete, StepVisits(states, rank, concrete, c, a), b)
  {
    if b == [] {
      assert a + b == a;
    } else {
      StepVisitsAppend(states, rank, concrete, c, a, b[..|b| - 1]);
      assert (a + b)[..|a + b| - 1] == a + b[..|b| - 1];
    }
  }

  /** A super state ranks below its sub state. */
  lemma SuperBelow(states: seq<SemanticState>, rank: seq<nat>, s: nat, i: nat)
    requires Crawlable(states, rank) && s < |states| && i < |states[s].superStates|
    ensures states[s].superStates[i] < |states| && rank[states[s].superStates[i]] < rank[s]
  {
  }

  /** Walking one more super state of `s` continues the crawl with that super state's walk. */
  lemma SuperVisitsStep(states: seq<SemanticState>, rank: seq<nat>, concrete: string, c: Crawl, s: nat, i: nat)
    requires Crawlable(states, rank) && s < |states| && i < |states[s].superStates|
    ensures StepVisits(states, rank, concrete, c, SuperVisits(states, s, i + 1, rank)) ==
      StepVisits(states, rank, concrete, StepVisits(states, rank, concrete, c, SuperVisits(states, s, i, rank)),
        Visits(states, states[s].superStates[i], rank))
  {
    StepVisitsAppend(states, rank, concrete, c, SuperVisits(states, s, i, rank), Visits(states, states[s].superStates[i], rank));
  }

  /** The walk of `s` ends with the transitions of `s` itself. */
  lemma VisitsLast(states: seq<SemanticState>, rank: seq<nat>, concrete: string, c: Crawl, s: nat)
    requires Crawlable(states, rank) && s < |states|
    ensures StepVisits(states, rank, concrete, c, Visits(states, s, rank)) ==
      StepAll(states, rank, concrete, StepVisits(states, rank, concrete, c, SuperVisits(states, s, |states[s].superStates|, rank)),
        s, |states[s].transitions|)
  {
    var sv := SuperVisits(states, s, |states[s].superStates|, rank);
    assert (sv + [s])[..|sv + [s]| - 1] == sv;
  }

  /** Every state the walk visits is the state itself or one of its (transitive) super-states. */
  lemma {:induction false} VisitsAreAncestors(states: seq<SemanticState>, s: nat, rank: seq<nat>)
    requires Crawlable(states, rank) && s < |states|
    ensures forall i :: 0 <= i < |Visits(states, s, rank)| ==> IsSuperStateOf(states, s, Visits(states, s, rank)[i], rank)
    decreases rank[s], 1, 0
  {
    SuperVisitsAreAncestors(states, s, |states[s].superStates|, rank);
  }

  lemma {:induction false} SuperVisitsAreAncestors(states: seq<SemanticState>, s: nat, n: nat, rank: seq<nat>)
    requires Crawlable(states, rank) && s < |states| && n <= |states[s].superStates|
    ensures forall i :: 0 <= i < |SuperVisits(states, s, n, rank)| ==> IsSuperStateOf(states, s, SuperVisits(states, s, n, rank)[i], rank)
    decreases rank[s], 0, n
  {
    if n > 0 {
      var sup := states[s].superStates[n - 1];
      SuperVisitsAreAncestors(states, s, n - 1, rank);
      VisitsAreAncestors(states, sup, rank);
      var a := SuperVisits(states, s, n - 1, rank);
      var b := Visits(states, sup, rank);
      forall i | 0 <= i < |a + b| ensures IsSuperStateOf(states, s, (a + b)[i], rank) {
        if i >= |a| {
          assert (a + b)[i] == b[i - |a|];
          assert IsSuperStateOf(states, sup, b[i - |a|], rank);
          assert IsSuperStateOf(states, s, b[i - |a|], rank) by {
            assert states[s].superStates[n - 1] == sup;
          }
        }
      }
    }
  }

  /** Every (transitive) super-state, and the state itself, is visited. */
  lemma {:induction false} AncestorsAreVisited(states: seq<SemanticState>, s: nat, p: nat, rank: seq<nat>)
    requires Crawlable(states, rank) && s < |states|
    requires IsSuperStateOf(states, s, p, rank)
    ensures p in Visits(states, s, rank)
    decreases rank[s]
  {
    if s != p {
      var k :| 0 <= k < |states[s].superStates| && IsSuperStateOf(states, states[s].superStates[k], p, rank);
      AncestorsAreVisited(states, states[s].superStates[k], p, rank);
      SuperVisitsContain(states, s, k + 1, |states[s].superStates|, rank);
      assert p in SuperVisits(states, s, |states[s].superStates|, rank);
    }
  }

  lemma {:induction false} SuperVisitsContain(states: seq<SemanticState>, s: nat, m: nat, n: nat, rank: seq<nat>)
    requires Crawlable(states, rank) && s < |states| && 0 < m <= n <= |states[s].superStates|
    ensures forall x :: x in Visits(states, states[s].superStates[m - 1], rank) ==> x in SuperVisits(states, s, n, rank)
    decreases n
  {
    var before := SuperVisits(states, s, n - 1, rank);
    var last := Visits(states, states[s].superStates[n - 1], rank);
    assert SuperVisits(states, s, n, rank) == before + last;
    if n > m {
      SuperVisitsContain(states, s, m, n - 1, rank);
      forall x | x in Visits(states, states[s].superStates[m - 1], rank)
        ensures x in SuperVisits(states, s, n, rank)
      {
        assert x in before;
      }
    }
  }

  /** One step reports a conflict exactly when the event is known, the outcomes differ and the earlier definition may not be overridden. */
  lemma StepConflict(states: seq<SemanticState>, rank: seq<nat>, concrete: string, c: Crawl, s: nat, tr: SemanticTransition)
    requires Crawlable(states, rank) && s < |states| && (tr.nextState.Some? ==> tr.nextState.value < |states|)
    ensures var t := TupleOf(states, s, tr);
      var r := Step(states, rank, concrete, c, s, tr);
      var conflict := t.event in c.tuples && !SameOutcomes(t, c.tuples[t.event]) && !MayOverride(states, rank, s, c.tuples[t.event]);
      (conflict ==> r == Crawl(c.tuples, c.errors + [ConflictError(concrete, t.event)])) &&
      (!conflict ==> r.errors == c.errors && t.event in r.tuples && SameOutcomes(r.tuples[t.event], t))
  {
  }

  ghost predicate IsConflict(e: AnalysisError, concrete: string)
  {
    exists event :: e == ConflictError(concrete, event)
  }

  /** `r` is `errors` followed only by `CONFLICTING_SUPERSTATES` errors. */
  ghost predicate ConflictsAppended(errors: seq<AnalysisError>, r: seq<AnalysisError>)
  {
    |r| >= |errors| && r[..|errors|] == errors &&
    forall i :: |errors| <= i < |r| ==> r[i].id == ConflictingSuperstates
  }

  /** The crawl only ever appends `CONFLICTING_SUPERSTATES` errors. */
  lemma {:induction false} CrawlAddsOnlyConflicts(states: seq<SemanticState>, rank: seq<nat>, errors: seq<AnalysisError>, n: nat)
    requires Crawlable(states, rank) && n <= |states|
    ensures ConflictsAppended(errors, CrawlStates(states, rank, errors, n))
  {
    if n > 0 {
      CrawlAddsOnlyConflicts(states, rank, errors, n - 1);
      var before := CrawlStates(states, rank, errors, n - 1);
      if !states[n - 1].isAbstractState {
        CrawlStateConflicts(states, rank, before, n - 1);
        ConflictsAppendedTrans(errors, before, CrawlStates(states, rank, errors, n));
      }
    }
  }

  /** The crawl of one concrete state appends only `CONFLICTING_SUPERSTATES` errors. */
  lemma CrawlStateConflicts(states: seq<SemanticState>, rank: seq<nat>, before: seq<AnalysisError>, s: nat)
    requires Crawlable(states, rank) && s < |states|
    ensures ConflictsAppended(before, StepVisits(states, rank, states[s].name, Crawl(map[], before), Visits(states, s, rank)).errors)
  {
    var r := StepVisits(states, rank, states[s].name, Crawl(map[], before), Visits(states, s, rank)).errors;
    StepVisitsConflicts(states, rank, states[s].name, Crawl(map[], before), Visits(states, s, rank));
    forall i | |before| <= i < |r| ensures r[i].id == ConflictingSuperstates {
      var event :| r[i] == ConflictError(states[s].name, event);
    }
  }

  lemma ConflictsAppendedTrans(a: seq<AnalysisError>, b: seq<AnalysisError>, c: seq<AnalysisError>)
    requires ConflictsAppended(a, b) && ConflictsAppended(b, c)
    ensures ConflictsAppended(a, c)
  {
    assert c[..|a|] == c[..|b|][..|a|];
    forall i | |a| <= i < |c| ensures c[i].id == ConflictingSuperstates {
      if i < |b| {
        assert c[i] == c[..|b|][i];
      }
    }
  }

  lemma {:induction false} StepVisitsConflicts(states: seq<SemanticState>, rank: seq<nat>, concrete: string, c: Crawl, vs: seq<nat>)
    requires Crawlable(states, rank) && forall i :: 0 <= i < |vs| ==> vs[i] < |states|
    ensures var r := StepVisits(states, rank, concrete, c, vs).errors;
      |r| >= |c.errors| && r[..|c.errors|] == c.errors &&
      forall i :: |c.errors| <= i < |r| ==> IsConflict(r[i], concrete)
  {
    if vs != [] {
      StepVisitsConflicts(states, rank, concrete, c, vs[..|vs| - 1]);
      var v := vs[|vs| - 1];
      var mid := StepVisits(states, rank, concrete, c, vs[..|vs| - 1]);
      StepAllConflicts(states, rank, concrete, mid, v, |states[v].transitions|);
      var r := StepVisits(states, rank, concrete, c, vs).errors;
      forall i | |c.errors| <= i < |r| ensures IsConflict(r[i], concrete) {
        if i < |mid.errors| {
          assert r[i] == r[..|mid.errors|][i] == mid.errors[i];
        }
      }
      assert r[..|c.errors|] == r[..|mid.errors|][..|c.errors|];
    }
  }

  lemma {:induction false} StepAllConflicts(states: seq<SemanticState>, rank: seq<nat>, concrete: string, c: Crawl, s: nat, n: nat)
    requires Crawlable(states, rank) && s < |states| && n <= |states[s].transitions|
    ensures var r := StepAll(states, rank, concrete, c, s, n).errors;
      |r| >= |c.errors| && r[..|c.errors|] == c.errors &&
      forall i :: |c.errors| <= i < |r| ==> IsConflict(r[i], concrete)
  {
    if n > 0 {
      StepAllConflicts(states, rank, concrete, c, s, n - 1);
      var before := StepAll(states, rank, concrete, c, s, n - 1);
      var tr := states[s].transitions[n - 1];
      StepConflict(states, rank, concrete, before, s, tr);
      var r := StepAll(states, rank, concrete, c, s, n).errors;
      if r != before.errors {
        var event := TupleOf(states, s, tr).event;
        assert r == before.errors + [ConflictError(concrete, event)];
        forall i | |c.errors| <= i < |r| ensures IsConflict(r[i], concrete) {
          if i == |before.errors| {
            assert r[i] == ConflictError(concrete, event);
          } else {
            assert r[i] == before.errors[i];
          }
        }
        assert r[..|c.errors|] == before.errors[..|c.errors|];
      }
    }
  }

  // Single inheritance never conflicts.

  /** Every state has at most one super-state. */
  ghost predicate SingleInheritance(states: seq<SemanticState>)
  {
    forall i :: 0 <= i < |states| ==> |states[i].superStates| <= 1
  }

  /** Every remembered tuple was defined in `s` or one of its super-states. */
  ghost predicate TuplesFromAncestors(states: seq<SemanticState>, rank: seq<nat>, tuples: map<string, TransitionTuple>, s: nat)
    requires Crawlable(states, rank) && s < |states|
  {
    forall e :: e in tuples ==>
      exists q :: 0 <= q < |states| && states[q].name == tuples[e].currentState && IsSuperStateOf(states, s, q, rank)
  }

  lemma {:induction false} StepAllFromAncestors(states: seq<SemanticState>, rank: seq<nat>, concrete: string, c: Crawl, s: nat, n: nat)
    requires Crawlable(states, rank) && UniqueNames(states) && s < |states| && n <= |states[s].transitions|
    requires TuplesFromAncestors(states, rank, c.tuples, s)
    ensures StepAll(states, rank, concrete, c, s, n).errors == c.errors
    ensures TuplesFromAncestors(states, rank, StepAll(states, rank, concrete, c, s, n).tuples, s)
  {
    if n > 0 {
      StepAllFromAncestors(states, rank, concrete, c, s, n - 1);
      StepFromAncestors(states, rank, concrete, StepAll(states, rank, concrete, c, s, n - 1), s, states[s].transitions[n - 1]);
    }
  }

  /** One transition of `s` against tuples from its ancestors: no conflict, and the tuples stay from its ancestors. */
  lemma StepFromAncestors(states: seq<SemanticState>, rank: seq<nat>, concrete: string, c: Crawl, s: nat, tr: SemanticTransition)
    requires Crawlable(states, rank) && UniqueNames(states) && s < |states|
    requires tr.nextState.Some? ==> tr.nextState.value < |states|
    requires TuplesFromAncestors(states, rank, c.tuples, s)
    ensures Step(states, rank, concrete, c, s, tr).errors == c.errors
    ensures TuplesFromAncestors(states, rank, Step(states, rank, concrete, c, s, tr).tuples, s)
  {
    var t := TupleOf(states, s, tr);
    if t.event in c.tuples && !SameOutcomes(t, c.tuples[t.event]) {
      var q :| 0 <= q < |states| && states[q].name == c.tuples[t.event].currentState && IsSuperStateOf(states, s, q, rank);
      assert Names(states)[q] == states[q].name;
      UniqueNamesDistinct(states);
      LookupUnique(Names(states), q);
    }
  }

  /** Distinct state names, stated on the name list. */
  lemma UniqueNamesDistinct(states: seq<SemanticState>)
    requires UniqueNames(states)
    ensures NoDuplicates(Names(states))
  {
    forall i, j | 0 <= i < j < |states| ensures Names(states)[i] != Names(states)[j] {
      assert states[i].name != states[j].name;
    }
  }

  /** Tuples remembered from the ancestors of a super-state come from ancestors of the sub-state too. */
  lemma AncestorsOfSuper(states: seq<SemanticState>, rank: seq<nat>, tuples: map<string, TransitionTuple>, s: nat, p: nat)
    requires Crawlable(states, rank) && s < |states| && p < |states| && IsSuperStateOf(states, s, p, rank)
    requires TuplesFromAncestors(states, rank, tuples, p)
    ensures TuplesFromAncestors(states, rank, tuples, s)
  {
    forall e | e in tuples
      ensures exists q :: 0 <= q < |states| && states[q].name == tuples[e].currentState && IsSuperStateOf(states, s, q, rank)
    {
      var q :| 0 <= q < |states| && states[q].name == tuples[e].currentState && IsSuperStateOf(states, p, q, rank);
      SuperStateOfTransitive(states, s, p, q, rank);
    }
  }

  /** The crawl of a state with one super-state `p` is the crawl of `p`'s chain followed by the state itself. */
  lemma CrawlOverSuper(states: seq<SemanticState>, rank: seq<nat>, concrete: string, start: Crawl, s: nat, p: nat)
    requires Crawlable(states, rank) && s < |states| && p < |states| && states[s].superStates == [p]
    ensures StepVisits(states, rank, concrete, start, Visits(states, s, rank))
         == StepAll(states, rank, concrete, StepVisits(states, rank, concrete, start, Visits(states, p, rank)), s, |states[s].transitions|)
  {
    assert SuperVisits(states, s, 1, rank) == [] + Visits(states, p, rank);
    assert Visits(states, s, rank) == Visits(states, p, rank) + [s];
    StepVisitsAppend(states, rank, concrete, start, Visits(states, p, rank), [s]);
    var mid := StepVisits(states, rank, concrete, start, Visits(states, p, rank));
    assert StepVisits(states, rank, concrete, mid, [s]) == StepAll(states, rank, concrete, mid, s, |states[s].transitions|) by {
      assert [s][..0] == [];
    }
  }

  /** Overriding the tuples of a single super-state's chain adds no error and keeps every tuple from an ancestor. */
  lemma ChainCrawlOver(states: seq<SemanticState>, rank: seq<nat>, concrete: string, errors: seq<AnalysisError>, s: nat, p: nat)
    requires Crawlable(states, rank) && UniqueNames(states) && s < |states| && p < |states| && states[s].superStates == [p]
    requires StepVisits(states, rank, concrete, Crawl(map[], errors), Visits(states, p, rank)).errors == errors
    requires TuplesFromAncestors(states, rank, StepVisits(states, rank, concrete, Crawl(map[], errors), Visits(states, p, rank)).tuples, p)
    ensures StepVisits(states, rank, concrete, Crawl(map[], errors), Visits(states, s, rank)).errors == errors
    ensures TuplesFromAncestors(states, rank, StepVisits(states, rank, concrete, Crawl(map[], errors), Visits(states, s, rank)).tuples, s)
  {
    var start := Crawl(map[], errors);
    CrawlOverSuper(states, rank, concrete, start, s, p);
    var mid := StepVisits(states, rank, concrete, start, Visits(states, p, rank));
    assert IsSuperStateOf(states, s, p, rank) by {
      assert IsSuperStateOf(states, states[s].superStates[0], p, rank);
    }
    AncestorsOfSuper(states, rank, mid.tuples, s, p);
    StepAllFromAncestors(states, rank, concrete, mid, s, |states[s].transitions|);
  }

  /** Along a chain of single super-states no override is a conflict, and every remembered tuple comes from an ancestor. */
  lemma {:induction false} ChainCrawl(states: seq<SemanticState>, rank: seq<nat>, concrete: string, errors: seq<AnalysisError>, s: nat)
    requires Crawlable(states, rank) && UniqueNames(states) && SingleInheritance(states) && s < |states|
    ensures StepVisits(states, rank, concrete, Crawl(map[], errors), Visits(states, s, rank)).errors == errors
    ensures TuplesFromAncestors(states, rank, StepVisits(states, rank, concrete, Crawl(map[], errors), Visits(states, s, rank)).tuples, s)
    decreases rank[s]
  {
    var sups := states[s].superStates;
    if |sups| == 0 {
      var start := Crawl(map[], errors);
      assert Visits(states, s, rank) == [s];
      assert StepVisits(states, rank, concrete, start, []) == start;
      StepAllFromAncestors(states, rank, concrete, start, s, |states[s].transitions|);
    } else {
      var p := sups[0];
      assert sups == [p];
      ChainCrawl(states, rank, concrete, errors, p);
      ChainCrawlOver(states, rank, concrete, errors, s, p);
    }
  }

  /** With single inheritance the crawl reports no conflict: a sub-state may always override its super-states. */
  lemma {:induction false} SingleInheritanceNoConflicts(states: seq<SemanticState>, rank: seq<nat>, errors: seq<AnalysisError>, n: nat)
    requires Crawlable(states, rank) && UniqueNames(states) && SingleInheritance(states) && n <= |states|
    ensures CrawlStates(states, rank, errors, n) == errors
  {
    if n > 0 {
      SingleInheritanceNoConflicts(states, rank, errors, n - 1);
      var before := CrawlStates(states, rank, errors, n - 1);
      CrawlStateNoConflicts(states, rank, before, n - 1);
      assert CrawlStates(states, rank, errors, n) == CrawlState(states, rank, before, n - 1);
    }
  }

  /** With single inheritance the crawl of one state leaves the errors as they were. */
  lemma CrawlStateNoConflicts(states: seq<SemanticState>, rank: seq<nat>, before: seq<AnalysisError>, s: nat)
    requires Crawlable(states, rank) && UniqueNames(states) && SingleInheritance(states) && s < |states|
    ensures CrawlState(states, rank, before, s) == before
  {
    if !states[s].isAbstractState {
      ChainCrawl(states, rank, states[s].name, before, s);
    }
  }
}
