/**
 * What the semantic analyzer's list builders and validity checks compute,
 * as functions of the parsed logic. Each check walks `fsm.logic` and, inside
 * each entry, its super-states or sub-transitions; the functions below recur on
 * the last element so that a loop's progress is a prefix of them.
 */
module AnalyzerChecks {
  import opened Wrappers
  import opened Strings
  import opened OrderedSets
  import opened FsmSyntax
  import opened AnalysisErrors

  function Err(id: AnalysisErrorId, text: string): AnalysisError
  {
    AnalysisError(id, TextExtra(text))
  }

  function Last<T>(s: seq<T>): T requires |s| > 0 { s[|s| - 1] }
  function Init<T>(s: seq<T>): seq<T> requires |s| > 0 { s[..|s| - 1] }

  // ---------------------------------------------------------------------
  // State, event and action lists

  function NameList(logic: seq<Transition>): (r: seq<string>)
    ensures |r| == |logic| && forall i :: 0 <= i < |logic| ==> r[i] == logic[i].state.name
  {
    seq(|logic|, i requires 0 <= i < |logic| => logic[i].state.name)
  }

  /** The keys of the `states` map: every declared name once, in order of first declaration. */
  function DeclaredNames(logic: seq<Transition>): seq<string>
  {
    Distinct(NameList(logic))
  }

  function SubEvents(subs: seq<SubTransition>): seq<string>
  {
    if subs == [] then []
    else SubEvents(Init(subs)) + (if Last(subs).event.Some? then [Last(subs).event.value] else [])
  }

  /** Every non-null event, in order, with repeats. */
  function EventList(logic: seq<Transition>): seq<string>
  {
    if logic == [] then [] else EventList(Init(logic)) + SubEvents(Last(logic).subTransitions)
  }

  function EntryExitList(logic: seq<Transition>): seq<string>
  {
    if logic == [] then []
    else EntryExitList(Init(logic)) + Last(logic).state.entryActions + Last(logic).state.exitActions
  }

  function SubActions(subs: seq<SubTransition>): seq<string>
  {
    if subs == [] then [] else SubActions(Init(subs)) + Last(subs).actions
  }

  function TransitionActionList(logic: seq<Transition>): seq<string>
  {
    if logic == [] then [] else TransitionActionList(Init(logic)) + SubActions(Last(logic).subTransitions)
  }

  lemma {:induction false} SubEventsMembers(subs: seq<SubTransition>, e: string)
    ensures e in SubEvents(subs) <==> exists k :: 0 <= k < |subs| && subs[k].event == Some(e)
  {
    if subs != [] {
      SubEventsMembers(Init(subs), e);
      assert forall k :: 0 <= k < |subs| - 1 ==> Init(subs)[k] == subs[k];
    }
  }

  /** The event set holds exactly the non-null events of all sub-transitions. */
  lemma EventListMembers(logic: seq<Transition>, e: string)
    ensures e in EventList(logic) <==>
      exists i, k :: 0 <= i < |logic| && 0 <= k < |logic[i].subTransitions| && logic[i].subTransitions[k].event == Some(e)
  {
    if e in EventList(logic) {
      var i, k := EventFrom(logic, e);
    }
    if exists i, k :: 0 <= i < |logic| && 0 <= k < |logic[i].subTransitions| && logic[i].subTransitions[k].event == Some(e) {
      var i, k :| 0 <= i < |logic| && 0 <= k < |logic[i].subTransitions| && logic[i].subTransitions[k].event == Some(e);
      EventFor(logic, e, i, k);
    }
  }

  /** Every listed event is the event of sub-transition `k` of transition `i`. */
  lemma {:induction false} EventFrom(logic: seq<Transition>, e: string) returns (i: nat, k: nat)
    requires e in EventList(logic)
    ensures i < |logic| && k < |logic[i].subTransitions| && logic[i].subTransitions[k].event == Some(e)
  {
    var init, last := Init(logic), Last(logic);
    if e in EventList(init) {
      i, k := EventFrom(init, e);
      assert logic[i] == init[i];
    } else {
      SubEventsMembers(last.subTransitions, e);
      i := |logic| - 1;
      k :| 0 <= k < |last.subTransitions| && last.subTransitions[k].event == Some(e);
    }
  }

  /** Every non-null event of a sub-transition is listed. */
  lemma {:induction false} EventFor(logic: seq<Transition>, e: string, i: nat, k: nat)
    requires i < |logic| && k < |logic[i].subTransitions| && logic[i].subTransitions[k].event == Some(e)
    ensures e in EventList(logic)
  {
    var init := Init(logic);
    if i < |init| {
      assert init[i] == logic[i];
      EventFor(init, e, i, k);
    } else {
      SubEventsMembers(logic[i].subTransitions, e);
    }
  }

  lemma {:induction false} SubActionsMembers(subs: seq<SubTransition>, a: string)
    ensures a in SubActions(subs) <==> exists k :: 0 <= k < |subs| && a in subs[k].actions
  {
    if subs != [] {
      SubActionsMembers(Init(subs), a);
      assert forall k :: 0 <= k < |subs| - 1 ==> Init(subs)[k] == subs[k];
    }
  }

  /** The action set holds exactly the entry, exit and transition actions. */
  lemma {:induction false} ActionListMembers(logic: seq<Transition>, a: string)
    ensures a in EntryExitList(logic) + TransitionActionList(logic) <==>
      exists i :: 0 <= i < |logic| &&
        (a in logic[i].state.entryActions || a in logic[i].state.exitActions ||
         exists k :: 0 <= k < |logic[i].subTransitions| && a in logic[i].subTransitions[k].actions)
  {
    if logic != [] {
      ActionListMembers(Init(logic), a);
      SubActionsMembers(Last(logic).subTransitions, a);
      assert forall i :: 0 <= i < |logic| - 1 ==> Init(logic)[i] == logic[i];
    }
  }

  // ---------------------------------------------------------------------
  // checkUndefinedStates

  function SuperErrors(supers: seq<string>, declared: seq<string>): seq<AnalysisError>
  {
    if supers == [] then []
    else
      SuperErrors(Init(supers), declared) +
        (if Last(supers) !in declared then [Err(UndefinedSuperState, Last(supers))] else [])
  }

  function NextStateErrors(subs: seq<SubTransition>, declared: seq<string>): seq<AnalysisError>
  {
    if subs == [] then []
    else
      NextStateErrors(Init(subs), declared) +
        (if Last(subs).nextState.Some? && Last(subs).nextState.value !in declared
         then [Err(UndefinedState, Last(subs).nextState.value)] else [])
  }

  function UndefinedLogicErrors(logic: seq<Transition>, declared: seq<string>): seq<AnalysisError>
  {
    if logic == [] then []
    else
      UndefinedLogicErrors(Init(logic), declared) +
        SuperErrors(Last(logic).state.superStates, declared) +
        NextStateErrors(Last(logic).subTransitions, declared)
  }

  /** Checking one more logic entry appends its super-state errors, then its next-state errors. */
  lemma UndefinedLogicStep(pre: seq<AnalysisError>, logic: seq<Transition>, i: nat, declared: seq<string>)
    requires i < |logic|
    ensures pre + UndefinedLogicErrors(logic[..i], declared) + SuperErrors(logic[i].state.superStates, declared) +
      NextStateErrors(logic[i].subTransitions, declared) == pre + UndefinedLogicErrors(logic[..i + 1], declared)
  {
    assert Init(logic[..i + 1]) == logic[..i];
  }

  /** `checkUndefinedStates`: the logic's errors, then the initial value's. */
  function UndefinedErrors(logic: seq<Transition>, declared: seq<string>, initial: Option<string>): seq<AnalysisError>
  {
    UndefinedLogicErrors(logic, declared) +
    (if initial.Some? && initial.value !in declared then [Err(UndefinedState, "initial: " + initial.value)] else [])
  }

  lemma {:induction false} SuperErrorsMeaning(supers: seq<string>, declared: seq<string>, e: AnalysisError)
    ensures e in SuperErrors(supers, declared) <==>
      exists k :: 0 <= k < |supers| && supers[k] !in declared && e == Err(UndefinedSuperState, supers[k])
  {
    if e in SuperErrors(supers, declared) {
      var k := SuperErrorFrom(supers, declared, e);
    }
    if exists k :: 0 <= k < |supers| && supers[k] !in declared && e == Err(UndefinedSuperState, supers[k]) {
      var k :| 0 <= k < |supers| && supers[k] !in declared && e == Err(UndefinedSuperState, supers[k]);
      SuperErrorFor(supers, declared, k);
    }
  }

  /** Every UNDEFINED_SUPER_STATE error names an undeclared super-state, returned as `k`. */
  lemma {:induction false} SuperErrorFrom(supers: seq<string>, declared: seq<string>, e: AnalysisError) returns (k: nat)
    requires e in SuperErrors(supers, declared)
    ensures k < |supers| && supers[k] !in declared && e == Err(UndefinedSuperState, supers[k])
  {
    var init := Init(supers);
    if e in SuperErrors(init, declared) {
      k := SuperErrorFrom(init, declared, e);
      assert supers[k] == init[k];
    } else {
      k := |supers| - 1;
    }
  }

  /** Every undeclared super-state is reported. */
  lemma {:induction false} SuperErrorFor(supers: seq<string>, declared: seq<string>, k: nat)
    requires k < |supers| && supers[k] !in declared
    ensures Err(UndefinedSuperState, supers[k]) in SuperErrors(supers, declared)
  {
    var init := Init(supers);
    if k < |init| {
      SuperErrorFor(init, declared, k);
      assert supers[k] == init[k];
    }
  }

  lemma {:induction false} NextStateErrorsMeaning(subs: seq<SubTransition>, declared: seq<string>, e: AnalysisError)
    ensures e in NextStateErrors(subs, declared) <==>
      exists k :: 0 <= k < |subs| && subs[k].nextState.Some? && subs[k].nextState.value !in declared &&
        e == Err(UndefinedState, subs[k].nextState.value)
  {
    if e in NextStateErrors(subs, declared) {
      var k := NextStateErrorFrom(subs, declared, e);
    }
    if exists k :: 0 <= k < |subs| && subs[k].nextState.Some? && subs[k].nextState.value !in declared &&
        e == Err(UndefinedState, subs[k].nextState.value) {
      var k :| 0 <= k < |subs| && subs[k].nextState.Some? && subs[k].nextState.value !in declared &&
        e == Err(UndefinedState, subs[k].nextState.value);
      NextStateErrorFor(subs, declared, k);
    }
  }

  /** Every UNDEFINED_STATE error of a sub-transition list names an undeclared next state, of sub-transition `k`. */
  lemma {:induction false} NextStateErrorFrom(subs: seq<SubTransition>, declared: seq<string>, e: AnalysisError) returns (k: nat)
    requires e in NextStateErrors(subs, declared)
    ensures k < |subs| && subs[k].nextState.Some? && subs[k].nextState.value !in declared &&
      e == Err(UndefinedState, subs[k].nextState.value)
  {
    var init := Init(subs);
    if e in NextStateErrors(init, declared) {
      k := NextStateErrorFrom(init, declared, e);
      assert subs[k] == init[k];
    } else {
      k := |subs| - 1;
    }
  }

  /** Every undeclared (non-null) next state is reported. */
  lemma {:induction false} NextStateErrorFor(subs: seq<SubTransition>, declared: seq<string>, k: nat)
    requires k < |subs| && subs[k].nextState.Some? && subs[k].nextState.value !in declared
    ensures Err(UndefinedState, subs[k].nextState.value) in NextStateErrors(subs, declared)
  {
    var init := Init(subs);
    if k < |init| {
      NextStateErrorFor(init, declared, k);
      assert subs[k] == init[k];
    }
  }

  /** `e` is an error the undefined-state check reports for transition `t`. */
  ghost predicate UndefinedIn(t: Transition, declared: seq<string>, e: AnalysisError)
  {
    (exists k :: 0 <= k < |t.state.superStates| && t.state.superStates[k] !in declared &&
       e == Err(UndefinedSuperState, t.state.superStates[k])) ||
    (exists k :: 0 <= k < |t.subTransitions| && t.subTransitions[k].nextState.Some? &&
       t.subTransitions[k].nextState.value !in declared &&
       e == Err(UndefinedState, t.subTransitions[k].nextState.value))
  }

  /**
   * UNDEFINED_SUPER_STATE names an undeclared super-state; UNDEFINED_STATE
   * names an undeclared non-null next state or the undeclared initial value.
   * A null next state is never reported.
   */
  lemma {:induction false} UndefinedErrorsMeaning(logic: seq<Transition>, declared: seq<string>, initial: Option<string>,
                                                  e: AnalysisError)
    ensures e in UndefinedLogicErrors(logic, declared) <==>
      exists i :: 0 <= i < |logic| && UndefinedIn(logic[i], declared, e)
    ensures e in UndefinedErrors(logic, declared, initial) <==>
      (exists i :: 0 <= i < |logic| && UndefinedIn(logic[i], declared, e)) ||
      (initial.Some? && initial.value !in declared && e == Err(UndefinedState, "initial: " + initial.value))
  {
    if e in UndefinedLogicErrors(logic, declared) {
      UndefinedErrorsSound(logic, declared, e);
    }
    if exists i :: 0 <= i < |logic| && UndefinedIn(logic[i], declared, e) {
      var i :| 0 <= i < |logic| && UndefinedIn(logic[i], declared, e);
      UndefinedErrorsComplete(logic, declared, e, i);
    }
  }

  /** Every reported error comes from some transition. */
  lemma {:induction false} UndefinedErrorsSound(logic: seq<Transition>, declared: seq<string>, e: AnalysisError)
    requires e in UndefinedLogicErrors(logic, declared)
    ensures exists i :: 0 <= i < |logic| && UndefinedIn(logic[i], declared, e)
  {
    var last := |logic| - 1;
    UndefinedInLast(logic[last], declared, e);
    if e in UndefinedLogicErrors(Init(logic), declared) {
      UndefinedErrorsSound(Init(logic), declared, e);
      var i :| 0 <= i < last && UndefinedIn(Init(logic)[i], declared, e);
      assert Init(logic)[i] == logic[i];
    } else {
      assert UndefinedIn(logic[last], declared, e);
    }
  }

  /** Every undeclared name some transition refers to is reported. */
  lemma {:induction false} UndefinedErrorsComplete(logic: seq<Transition>, declared: seq<string>, e: AnalysisError, i: nat)
    requires i < |logic| && UndefinedIn(logic[i], declared, e)
    ensures e in UndefinedLogicErrors(logic, declared)
  {
    var last := |logic| - 1;
    if i < last {
      assert Init(logic)[i] == logic[i];
      UndefinedErrorsComplete(Init(logic), declared, e, i);
    } else {
      UndefinedInLast(logic[last], declared, e);
    }
  }

  /** The errors one transition adds are exactly those it reports. */
  lemma UndefinedInLast(t: Transition, declared: seq<string>, e: AnalysisError)
    ensures e in SuperErrors(t.state.superStates, declared) + NextStateErrors(t.subTransitions, declared) <==>
      UndefinedIn(t, declared, e)
  {
    SuperErrorsMeaning(t.state.superStates, declared, e);
    NextStateErrorsMeaning(t.subTransitions, declared, e);
  }

  // ---------------------------------------------------------------------
  // checkForUnusedStates

  function SuperNameList(logic: seq<Transition>): seq<string>
  {
    if logic == [] then [] else SuperNameList(Init(logic)) + Last(logic).state.superStates
  }

  /** A null next state stands for the owning state. */
  function NextNames(owner: string, subs: seq<SubTransition>): seq<string>
  {
    if subs == [] then [] else NextNames(owner, Init(subs)) + [Last(subs).nextState.GetOr(owner)]
  }

  /** The next-state names of one more sub-transition follow those before it. */
  lemma NextNamesStep(owner: string, subs: seq<SubTransition>, j: nat)
    requires j < |subs|
    ensures NextNames(owner, subs[..j + 1]) == NextNames(owner, subs[..j]) + [subs[j].nextState.GetOr(owner)]
  {
    assert Init(subs[..j + 1]) == subs[..j] && Last(subs[..j + 1]) == subs[j];
  }

  function NextNameList(logic: seq<Transition>): seq<string>
  {
    if logic == [] then []
    else NextNameList(Init(logic)) + NextNames(Last(logic).state.name, Last(logic).subTransitions)
  }

  /** The next-state names of one more transition follow those of the ones before. */
  lemma NextNameListStep(logic: seq<Transition>, i: nat)
    requires i < |logic|
    ensures NextNameList(logic[..i + 1]) == NextNameList(logic[..i]) + NextNames(logic[i].state.name, logic[i].subTransitions)
  {
    assert Init(logic[..i + 1]) == logic[..i] && Last(logic[..i + 1]) == logic[i];
  }

  /** `findUsedStates`: a non-empty initial value, every super-state and every next state. */
  function UsedStates(logic: seq<Transition>, initial: Option<string>): set<string>
  {
    (if initial.Some? && initial.value != "" then {initial.value} else {}) +
    (set x | x in SuperNameList(logic)) + (set x | x in NextNameList(logic))
  }

  /** `findStatesDefinedButNotUsed`, in declaration order. */
  function UnusedErrors(declared: seq<string>, used: set<string>): seq<AnalysisError>
  {
    if declared == [] then []
    else UnusedErrors(Init(declared), used) + (if Last(declared) !in used then [Err(UnusedState, Last(declared))] else [])
  }

  /** A sub-transition of `owner` leads to `x`: named so, or null and `x` is the owner. */
  predicate LeadsTo(owner: string, sub: SubTransition, x: string)
  {
    sub.nextState == Some(x) || (sub.nextState.None? && x == owner)
  }

  lemma {:induction false} NextNamesMembers(owner: string, subs: seq<SubTransition>, x: string)
    ensures x in NextNames(owner, subs) <==> exists k :: 0 <= k < |subs| && LeadsTo(owner, subs[k], x)
  {
    if subs != [] {
      NextNamesMembers(owner, Init(subs), x);
      assert forall k :: 0 <= k < |subs| - 1 ==> Init(subs)[k] == subs[k];
    }
  }

  lemma {:induction false} SuperNameListMembers(logic: seq<Transition>, x: string)
    ensures x in SuperNameList(logic) <==> exists i :: 0 <= i < |logic| && x in logic[i].state.superStates
  {
    if logic != [] {
      SuperNameListMembers(Init(logic), x);
      assert forall i :: 0 <= i < |logic| - 1 ==> Init(logic)[i] == logic[i];
    }
  }

  lemma NextNameListMembers(logic: seq<Transition>, x: string)
    ensures x in NextNameList(logic) <==>
      exists i, k :: 0 <= i < |logic| && 0 <= k < |logic[i].subTransitions| &&
        LeadsTo(logic[i].state.name, logic[i].subTransitions[k], x)
  {
    if x in NextNameList(logic) {
      var i, k := NextNameFrom(logic, x);
    }
    if exists i, k :: 0 <= i < |logic| && 0 <= k < |logic[i].subTransitions| &&
        LeadsTo(logic[i].state.name, logic[i].subTransitions[k], x) {
      var i, k :| 0 <= i < |logic| && 0 <= k < |logic[i].subTransitions| &&
        LeadsTo(logic[i].state.name, logic[i].subTransitions[k], x);
      NextNameFor(logic, x, i, k);
    }
  }

  /** Every listed next state is led to by sub-transition `k` of transition `i`. */
  lemma {:induction false} NextNameFrom(logic: seq<Transition>, x: string) returns (i: nat, k: nat)
    requires x in NextNameList(logic)
    ensures i < |logic| && k < |logic[i].subTransitions| && LeadsTo(logic[i].state.name, logic[i].subTransitions[k], x)
  {
    var init, last := Init(logic), Last(logic);
    if x in NextNameList(init) {
      i, k := NextNameFrom(init, x);
      assert logic[i] == init[i];
    } else {
      NextNamesMembers(last.state.name, last.subTransitions, x);
      i := |logic| - 1;
      k :| 0 <= k < |last.subTransitions| && LeadsTo(last.state.name, last.subTransitions[k], x);
    }
  }

  /** Whatever a sub-transition leads to is listed. */
  lemma {:induction false} NextNameFor(logic: seq<Transition>, x: string, i: nat, k: nat)
    requires i < |logic| && k < |logic[i].subTransitions| && LeadsTo(logic[i].state.name, logic[i].subTransitions[k], x)
    ensures x in NextNameList(logic)
  {
    var init := Init(logic);
    if i < |init| {
      assert init[i] == logic[i];
      NextNameFor(init, x, i, k);
    } else {
      NextNamesMembers(logic[i].state.name, logic[i].subTransitions, x);
    }
  }

  lemma {:induction false} UnusedErrorsMembers(declared: seq<string>, used: set<string>, x: string)
    ensures Err(UnusedState, x) in UnusedErrors(declared, used) <==> x in declared && x !in used
  {
    if declared != [] {
      UnusedErrorsMembers(Init(declared), used, x);
      assert declared == Init(declared) + [Last(declared)];
    }
  }

  /**
   * A declared state is reported unused exactly when it is not a non-empty
   * initial value, not a super-state and not a next state, a null next state
   * counting as use of its owner.
   */
  lemma UnusedStateMeaning(logic: seq<Transition>, initial: Option<string>, x: string)
    ensures Err(UnusedState, x) in UnusedErrors(DeclaredNames(logic), UsedStates(logic, initial)) <==>
      (exists i :: 0 <= i < |logic| && logic[i].state.name == x) &&
      !(initial == Some(x) && x != "") &&
      !(exists i :: 0 <= i < |logic| && x in logic[i].state.superStates) &&
      !(exists i, k :: 0 <= i < |logic| && 0 <= k < |logic[i].subTransitions| &&
          LeadsTo(logic[i].state.name, logic[i].subTransitions[k], x))
  {
    UnusedErrorsMembers(DeclaredNames(logic), UsedStates(logic, initial), x);
    DeclaredNamesMembers(logic, x);
    UsedStatesMembers(logic, initial, x);
  }

  lemma DeclaredNamesMembers(logic: seq<Transition>, x: string)
    ensures x in DeclaredNames(logic) <==> exists i :: 0 <= i < |logic| && logic[i].state.name == x
  {
    DistinctMembers(NameList(logic), x);
    if x in NameList(logic) {
      var i :| 0 <= i < |NameList(logic)| && NameList(logic)[i] == x;
      assert logic[i].state.name == x;
    }
  }

  lemma UsedStatesMembers(logic: seq<Transition>, initial: Option<string>, x: string)
    ensures x in UsedStates(logic, initial) <==>
      (initial == Some(x) && x != "") ||
      (exists i :: 0 <= i < |logic| && x in logic[i].state.superStates) ||
      (exists i, k :: 0 <= i < |logic| && 0 <= k < |logic[i].subTransitions| &&
          LeadsTo(logic[i].state.name, logic[i].subTransitions[k], x))
  {
    SuperNameListMembers(logic, x);
    NextNameListMembers(logic, x);
  }

  // ---------------------------------------------------------------------
  // checkForDuplicateTransitions

  /** The key `${state}(${event})`; a null event prints as "null". */
  function TransitionKey(name: string, event: Option<string>): (r: string)
    ensures |r| == |name| + |NullableText(event)| + 2
  {
    name + "(" + NullableText(event) + ")"
  }

  /**
   * For state names without "(" (the lexer's names), two keys agree exactly
   * when the states and the printed events agree; a null event and an event
   * named "null" print alike.
   */
  lemma TransitionKeyInjective(n1: string, e1: Option<string>, n2: string, e2: Option<string>)
    requires '(' !in n1 && '(' !in n2
    ensures TransitionKey(n1, e1) == TransitionKey(n2, e2) <==> n1 == n2 && NullableText(e1) == NullableText(e2)
  {
    var k1, k2 := TransitionKey(n1, e1), TransitionKey(n2, e2);
    if k1 == k2 {
      assert forall j :: 0 <= j < |n1| ==> k1[j] != '(';
      assert forall j :: 0 <= j < |n2| ==> k2[j] != '(';
      assert k1[|n1|] == '(' && k2[|n2|] == '(';
      assert |n1| == |n2|;
      assert n1 == k1[..|n1|] == n2;
      assert k1 == n1 + "(" + NullableText(e1) + ")";
      assert NullableText(e1) == k1[|n1| + 1..|k1| - 1];
      assert NullableText(e2) == k2[|n2| + 1..|k2| - 1];
    }
  }

  function SubKeys(name: string, subs: seq<SubTransition>): seq<string>
  {
    if subs == [] then [] else SubKeys(name, Init(subs)) + [TransitionKey(name, Last(subs).event)]
  }

  function KeyList(logic: seq<Transition>): seq<string>
  {
    if logic == [] then [] else KeyList(Init(logic)) + SubKeys(Last(logic).state.name, Last(logic).subTransitions)
  }

  /** One DUPLICATE_TRANSITION per key that was already seen. */
  function DuplicateErrors(keys: seq<string>): seq<AnalysisError>
  {
    if keys == [] then []
    else DuplicateErrors(Init(keys)) + (if Last(keys) in Init(keys) then [Err(DuplicateTransition, Last(keys))] else [])
  }

  /** The keys of one more sub-transition of a state follow the keys met so far. */
  lemma SubKeysStep(seen: seq<string>, name: string, subs: seq<SubTransition>, j: nat)
    requires j < |subs|
    ensures seen + SubKeys(name, subs[..j]) + [TransitionKey(name, subs[j].event)] == seen + SubKeys(name, subs[..j + 1])
  {
    assert Init(subs[..j + 1]) == subs[..j];
  }

  /** Meeting one more key: an error exactly when it was seen, and the seen set grows by it. */
  lemma DuplicateStep(keys: seq<string>, key: string)
    ensures DuplicateErrors(keys + [key]) == DuplicateErrors(keys) + (if key in keys then [Err(DuplicateTransition, key)] else [])
    ensures Distinct(keys + [key]) == AddToSet(Distinct(keys), key)
    ensures key in Distinct(keys) <==> key in keys
  {
    assert Init(keys + [key]) == keys;
    DistinctMembers(keys, key);
  }

  /** A key is reported exactly when it occurs twice or more. */
  lemma {:induction false} DuplicateErrorsMeaning(keys: seq<string>, k: string)
    ensures Err(DuplicateTransition, k) in DuplicateErrors(keys) <==>
      exists i, j :: 0 <= i < j < |keys| && keys[i] == k && keys[j] == k
  {
    if keys != [] {
      var p := Init(keys);
      DuplicateErrorsMeaning(p, k);
      assert forall i :: 0 <= i < |p| ==> p[i] == keys[i];
      if Last(keys) == k && k in p {
        var i :| 0 <= i < |p| && p[i] == k;
        assert keys[i] == k && keys[|keys| - 1] == k;
      }
      if exists i, j :: 0 <= i < j < |keys| && keys[i] == k && keys[j] == k {
        var i, j :| 0 <= i < j < |keys| && keys[i] == k && keys[j] == k;
        if j < |keys| - 1 {
          assert p[i] == k && p[j] == k;
        } else {
          assert p[i] == k;
        }
      }
    }
  }

  /** Every key beyond its first occurrence earns one error. */
  lemma {:induction false} DuplicateErrorsCount(keys: seq<string>)
    ensures |DuplicateErrors(keys)| == |keys| - |Distinct(keys)|
  {
    if keys != [] {
      DuplicateErrorsCount(Init(keys));
      DistinctMembers(Init(keys), Last(keys));
    }
  }

  // ---------------------------------------------------------------------
  // checkThatAbstractStatesAreNotTargets and checkForInconsistentAbstraction

  /** `findAbstractStates`. */
  function AbstractNames(logic: seq<Transition>): set<string>
  {
    set i | 0 <= i < |logic| && logic[i].state.isAbstractState :: logic[i].state.name
  }

  /** A sub-transition whose (non-empty) next state is one of `abstracts`. */
  predicate TargetsAbstract(st: SubTransition, abstracts: set<string>)
  {
    st.nextState.Some? && st.nextState.value != "" && st.nextState.value in abstracts
  }

  /** The error for such a sub-transition of state `name`: its transition key, an arrow, the target. */
  function AbstractTargetError(name: string, st: SubTransition): AnalysisError
    requires st.nextState.Some?
  {
    Err(AbstractStateUsedAsNextState, TransitionKey(name, st.event) + "->" + st.nextState.value)
  }

  function SubAbstractTargetErrors(name: string, subs: seq<SubTransition>, abstracts: set<string>): seq<AnalysisError>
  {
    if subs == [] then []
    else
      SubAbstractTargetErrors(name, Init(subs), abstracts) +
      (if TargetsAbstract(Last(subs), abstracts) then [AbstractTargetError(name, Last(subs))] else [])
  }

  function AbstractTargetErrors(logic: seq<Transition>, abstracts: set<string>): seq<AnalysisError>
  {
    if logic == [] then []
    else
      AbstractTargetErrors(Init(logic), abstracts) +
        SubAbstractTargetErrors(Last(logic).state.name, Last(logic).subTransitions, abstracts)
  }

  /** `checkForInconsistentAbstraction`: these go to the warnings. */
  function InconsistentAbstractionWarnings(logic: seq<Transition>, abstracts: set<string>): seq<AnalysisError>
  {
    if logic == [] then []
    else
      InconsistentAbstractionWarnings(Init(logic), abstracts) +
        (if !Last(logic).state.isAbstractState && Last(logic).state.name in abstracts
         then [Err(InconsistentAbstraction, Last(logic).state.name)] else [])
  }

  lemma {:induction false} SubAbstractTargetMeaning(name: string, subs: seq<SubTransition>, abstracts: set<string>, e: AnalysisError)
    ensures e in SubAbstractTargetErrors(name, subs, abstracts) <==>
      exists k :: 0 <= k < |subs| && TargetsAbstract(subs[k], abstracts) && e == AbstractTargetError(name, subs[k])
  {
    if e in SubAbstractTargetErrors(name, subs, abstracts) {
      var k := SubAbstractTargetFrom(name, subs, abstracts, e);
    }
    if exists k :: 0 <= k < |subs| && TargetsAbstract(subs[k], abstracts) && e == AbstractTargetError(name, subs[k]) {
      var k :| 0 <= k < |subs| && TargetsAbstract(subs[k], abstracts) && e == AbstractTargetError(name, subs[k]);
      SubAbstractTargetFor(name, subs, abstracts, k);
    }
  }

  /** Every error of a sub-transition list comes from a sub-transition `k` that targets an abstract state. */
  lemma {:induction false} SubAbstractTargetFrom(name: string, subs: seq<SubTransition>, abstracts: set<string>, e: AnalysisError)
    returns (k: nat)
    requires e in SubAbstractTargetErrors(name, subs, abstracts)
    ensures k < |subs| && TargetsAbstract(subs[k], abstracts) && e == AbstractTargetError(name, subs[k])
  {
    var init := Init(subs);
    if e in SubAbstractTargetErrors(name, init, abstracts) {
      k := SubAbstractTargetFrom(name, init, abstracts, e);
      assert subs[k] == init[k];
    } else {
      k := |subs| - 1;
    }
  }

  /** Every sub-transition that targets an abstract state is reported. */
  lemma {:induction false} SubAbstractTargetFor(name: string, subs: seq<SubTransition>, abstracts: set<string>, k: nat)
    requires k < |subs| && TargetsAbstract(subs[k], abstracts)
    ensures AbstractTargetError(name, subs[k]) in SubAbstractTargetErrors(name, subs, abstracts)
  {
    var init := Init(subs);
    if k < |init| {
      SubAbstractTargetFor(name, init, abstracts, k);
      assert subs[k] == init[k];
    }
  }

  /** An error is recorded for every sub-transition whose (non-empty) next state is declared abstract somewhere. */
  lemma {:induction false} AbstractTargetMeaning(logic: seq<Transition>, e: AnalysisError)
    ensures e in AbstractTargetErrors(logic, AbstractNames(logic)) <==>
      exists i, k :: 0 <= i < |logic| && 0 <= k < |logic[i].subTransitions| &&
        var st := logic[i].subTransitions[k];
        st.nextState.Some? && st.nextState.value != "" &&
        (exists j :: 0 <= j < |logic| && logic[j].state.isAbstractState && logic[j].state.name == st.nextState.value) &&
        e == AbstractTargetError(logic[i].state.name, st)
  {
    AbstractTargetPrefix(logic, |logic|, AbstractNames(logic), e);
    assert logic[..|logic|] == logic;
    if e in AbstractTargetErrors(logic, AbstractNames(logic)) {
      var i: nat, k: nat :| i < |logic| && AbstractTargetAt(logic, i, k, e);
    }
    if exists i, k :: 0 <= i < |logic| && 0 <= k < |logic[i].subTransitions| &&
         var st := logic[i].subTransitions[k];
         st.nextState.Some? && st.nextState.value != "" &&
         (exists j :: 0 <= j < |logic| && logic[j].state.isAbstractState && logic[j].state.name == st.nextState.value) &&
         e == AbstractTargetError(logic[i].state.name, st) {
      var i, k :| 0 <= i < |logic| && 0 <= k < |logic[i].subTransitions| &&
         var st := logic[i].subTransitions[k];
         st.nextState.Some? && st.nextState.value != "" &&
         (exists j :: 0 <= j < |logic| && logic[j].state.isAbstractState && logic[j].state.name == st.nextState.value) &&
         e == AbstractTargetError(logic[i].state.name, st);
      assert AbstractTargetAt(logic, i, k, e);
    }
  }

  /** Sub-transition `k` of entry `i` has a non-empty next state declared abstract somewhere, and `e` is its error. */
  ghost predicate AbstractTargetAt(logic: seq<Transition>, i: nat, k: nat, e: AnalysisError)
  {
    i < |logic| && k < |logic[i].subTransitions| &&
    var st := logic[i].subTransitions[k];
    st.nextState.Some? && st.nextState.value != "" &&
    (exists j :: 0 <= j < |logic| && logic[j].state.isAbstractState && logic[j].state.name == st.nextState.value) &&
    e == AbstractTargetError(logic[i].state.name, st)
  }

  lemma AbstractTargetAtMeaning(logic: seq<Transition>, i: nat, k: nat, e: AnalysisError)
    requires i < |logic| && k < |logic[i].subTransitions|
    ensures var st := logic[i].subTransitions[k];
      AbstractTargetAt(logic, i, k, e) <==>
      TargetsAbstract(st, AbstractNames(logic)) && e == AbstractTargetError(logic[i].state.name, st)
  {
    var st := logic[i].subTransitions[k];
    if TargetsAbstract(st, AbstractNames(logic)) {
      var j :| 0 <= j < |logic| && logic[j].state.isAbstractState && logic[j].state.name == st.nextState.value;
    }
  }

  lemma {:induction false} AbstractTargetPrefix(logic: seq<Transition>, n: nat, abstracts: set<string>, e: AnalysisError)
    requires n <= |logic| && abstracts == AbstractNames(logic)
    ensures e in AbstractTargetErrors(logic[..n], abstracts) <==> exists i: nat, k: nat :: i < n && AbstractTargetAt(logic, i, k, e)
  {
    if n > 0 {
      var t := logic[n - 1];
      AbstractTargetPrefix(logic, n - 1, abstracts, e);
      assert Init(logic[..n]) == logic[..n - 1] && Last(logic[..n]) == t;
      assert AbstractTargetErrors(logic[..n], abstracts) ==
        AbstractTargetErrors(logic[..n - 1], abstracts) + SubAbstractTargetErrors(t.state.name, t.subTransitions, abstracts);
      SubAbstractTargetMeaning(t.state.name, t.subTransitions, abstracts, e);
      if e in AbstractTargetErrors(logic[..n], abstracts) {
        if e in AbstractTargetErrors(logic[..n - 1], abstracts) {
          var i: nat, k: nat :| i < n - 1 && AbstractTargetAt(logic, i, k, e);
        } else {
          var k :| 0 <= k < |t.subTransitions| && TargetsAbstract(t.subTransitions[k], abstracts) &&
            e == AbstractTargetError(t.state.name, t.subTransitions[k]);
          AbstractTargetAtMeaning(logic, n - 1, k, e);
        }
      }
      if exists i: nat, k: nat :: i < n && AbstractTargetAt(logic, i, k, e) {
        var i: nat, k: nat :| i < n && AbstractTargetAt(logic, i, k, e);
        if i == n - 1 {
          AbstractTargetAtMeaning(logic, i, k, e);
        }
      }
    }
  }

  /** A warning names each non-abstract declaration of a state that is declared abstract elsewhere. */
  lemma {:induction false} InconsistentAbstractionMeaning(logic: seq<Transition>, n: nat, x: string)
    requires n <= |logic|
    ensures Err(InconsistentAbstraction, x) in InconsistentAbstractionWarnings(logic[..n], AbstractNames(logic)) <==>
      (exists i :: 0 <= i < n && !logic[i].state.isAbstractState && logic[i].state.name == x) &&
      (exists j :: 0 <= j < |logic| && logic[j].state.isAbstractState && logic[j].state.name == x)
  {
    if n > 0 {
      InconsistentAbstractionMeaning(logic, n - 1, x);
      assert Init(logic[..n]) == logic[..n - 1];
    }
  }

  /** Every warning the analyzer records is INCONSISTENT_ABSTRACTION. */
  lemma {:induction false} WarningsAreInconsistentAbstraction(logic: seq<Transition>, abstracts: set<string>)
    ensures forall w :: w in InconsistentAbstractionWarnings(logic, abstracts) ==> w.id == InconsistentAbstraction
  {
    if logic != [] {
      WarningsAreInconsistentAbstraction(Init(logic), abstracts);
    }
  }

  // ---------------------------------------------------------------------
  // checkForMultiplyDefinedStateActions

  /** `specifiesStateActions`: the state lists entry or exit actions, so its actions key is built from some. */
  function SpecifiesStateActions(t: Transition): (r: bool)
    ensures r <==> t.state.entryActions + t.state.exitActions != []
    ensures !r ==> ActionsKey(t) == ""
  {
    |t.state.entryActions| != 0 || |t.state.exitActions| != 0
  }

  /** `makeActionsKey`: entry then exit actions as a comma list. */
  function ActionsKey(t: Transition): string
  {
    Join(t.state.entryActions + t.state.exitActions, ",")
  }

  /** The map of first action keys and the errors, after the first `|logic|` entries. */
  function MultiplyDefined(logic: seq<Transition>): (map<string, string>, seq<AnalysisError>)
  {
    if logic == [] then (map[], [])
    else
      var (first, errs) := MultiplyDefined(Init(logic));
      var t := Last(logic);
      if !SpecifiesStateActions(t) then (first, errs)
      else if t.state.name in first then
        (first, errs + (if first[t.state.name] != ActionsKey(t) then [Err(StateActionsMultiplyDefined, t.state.name)] else []))
      else (first[t.state.name := ActionsKey(t)], errs)
  }

  /** One entry's effect on the first action keys and the errors. */
  function ActionsKeyStep(acc: (map<string, string>, seq<AnalysisError>), t: Transition): (map<string, string>, seq<AnalysisError>)
  {
    var (first, errs) := acc;
    if !SpecifiesStateActions(t) then (first, errs)
    else if t.state.name in first then
      if first[t.state.name] != ActionsKey(t) then (first, errs + [Err(StateActionsMultiplyDefined, t.state.name)])
      else (first, errs)
    else (first[t.state.name := ActionsKey(t)], errs)
  }

  lemma MultiplyDefinedPrefixStep(logic: seq<Transition>, i: nat)
    requires i < |logic|
    ensures MultiplyDefined(logic[..i + 1]) == ActionsKeyStep(MultiplyDefined(logic[..i]), logic[i])
  {
    assert Init(logic[..i + 1]) == logic[..i];
    assert Last(logic[..i + 1]) == logic[i];
    var errs := MultiplyDefined(logic[..i]).1;
    assert errs + [] == errs;
  }

  /** The first entry of `logic` that declares `name` with state actions, or `|logic|`. */
  function FirstWithActions(logic: seq<Transition>, name: string): (i: nat)
    ensures i <= |logic|
    ensures i < |logic| ==> logic[i].state.name == name && SpecifiesStateActions(logic[i])
    ensures forall j :: 0 <= j < i && j < |logic| ==> !(logic[j].state.name == name && SpecifiesStateActions(logic[j]))
  {
    if logic == [] then 0
    else if logic[0].state.name == name && SpecifiesStateActions(logic[0]) then 0
    else 1 + FirstWithActions(logic[1..], name)
  }

  lemma FirstWithActionsPrefix(logic: seq<Transition>, n: nat, name: string)
    requires n <= |logic|
    ensures FirstWithActions(logic[..n], name) < n ==> FirstWithActions(logic[..n], name) == FirstWithActions(logic, name)
    ensures FirstWithActions(logic[..n], name) == n ==> FirstWithActions(logic, name) >= n
  {
    var a := FirstWithActions(logic[..n], name);
    var b := FirstWithActions(logic, name);
    assert forall j :: 0 <= j < n ==> logic[..n][j] == logic[j];
    if a < n {
      assert b <= a;
      assert !(b < a);
    } else {
      assert !(b < n);
    }
  }

  /** The map holds, for each state with state actions, the key of its first such declaration. */
  lemma {:induction false} MultiplyDefinedMap(logic: seq<Transition>, name: string)
    ensures var first := MultiplyDefined(logic).0;
      (name in first <==> FirstWithActions(logic, name) < |logic|) &&
      (name in first ==> first[name] == ActionsKey(logic[FirstWithActions(logic, name)]))
  {
    if logic != [] {
      var n := |logic| - 1;
      MultiplyDefinedMap(Init(logic), name);
      FirstWithActionsPrefix(logic, n, name);
      assert Init(logic) == logic[..n];
    }
  }

  /**
   * Entry `i` adds STATE_ACTIONS_MULTIPLY_DEFINED exactly when it has state
   * actions, an earlier declaration of the same state had some, and the first
   * of those has a different actions key.
   */
  lemma MultiplyDefinedStep(logic: seq<Transition>, i: nat)
    requires i < |logic|
    ensures var t := logic[i];
      var f := FirstWithActions(logic, t.state.name);
      MultiplyDefined(logic[..i + 1]).1 ==
        MultiplyDefined(logic[..i]).1 +
        (if SpecifiesStateActions(t) && f < i && ActionsKey(logic[f]) != ActionsKey(t)
         then [Err(StateActionsMultiplyDefined, t.state.name)] else [])
  {
    var t := logic[i];
    assert Init(logic[..i + 1]) == logic[..i];
    assert Last(logic[..i + 1]) == t;
    MultiplyDefinedMap(logic[..i], t.state.name);
    FirstWithActionsPrefix(logic, i, t.state.name);
    if SpecifiesStateActions(t) {
      assert FirstWithActions(logic, t.state.name) <= i;
    }
  }
}
