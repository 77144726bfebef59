/**
 * `produceSemanticStateMachine`'s compile steps (`compileHeaders`,
 * `compileState`, `compileTransition`) as functions over the state arena.
 * References are resolved by name through the arena's names, which compiling
 * never changes.
 */
module AnalyzerCompile {
  import opened Wrappers
  import opened OrderedSets
  import opened FsmSyntax
  import opened SemanticStateMachines
  import opened AnalyzerChecks

  function Names(states: seq<SemanticState>): (r: seq<string>)
    ensures |r| == |states| && forall i :: 0 <= i < |states| ==> r[i] == states[i].name
  {
    seq(|states|, i requires 0 <= i < |states| => states[i].name)
  }

  /** `states.get(name)`, as an index. */
  function Lookup(names: seq<string>, name: string): (r: Option<nat>)
    ensures r.Some? <==> name in names
    ensures r.Some? ==> r.value < |names| && names[r.value] == name
  {
    var k := IndexOf(names, name);
    if k < 0 then None else Some(k)
  }

  lemma LookupUnique(names: seq<string>, k: nat)
    requires NoDuplicates(names) && k < |names|
    ensures Lookup(names, names[k]) == Some(k)
  {
  }

  function FreshStates(names: seq<string>): (r: seq<SemanticState>)
    ensures |r| == |names| && forall i :: 0 <= i < |names| ==> r[i] == NewState(names[i])
    ensures Names(r) == names
  {
    seq(|names|, i requires 0 <= i < |names| => NewState(names[i]))
  }

  /** One iteration of `addStateNamesToStateList`: `states.set(name, new SemanticState(name))`. */
  function AddStateName(states: seq<SemanticState>, name: string): seq<SemanticState>
  {
    var k := IndexOf(Names(states), name);
    if k >= 0 then states[k := NewState(name)] else states + [NewState(name)]
  }

  /** Setting a name again keeps the fresh arena fresh; it is `set.add` on the names. */
  lemma AddStateNameFresh(names: seq<string>, name: string)
    ensures AddStateName(FreshStates(names), name) == FreshStates(AddToSet(names, name))
  {
    assert Names(FreshStates(names)) == names;
  }

  /** `addStateNamesToStateList`. */
  function AddStateNames(states: seq<SemanticState>, names: seq<string>): seq<SemanticState>
  {
    if names == [] then states else AddStateName(AddStateNames(states, Init(names)), Last(names))
  }

  /** Adding one more name is one more `set`. */
  lemma AddStateNamesSnoc(states: seq<SemanticState>, names: seq<string>, name: string)
    ensures AddStateNames(states, names + [name]) == AddStateName(AddStateNames(states, names), name)
  {
    assert Init(names + [name]) == names;
  }

  /** Starting from no states, the arena holds one fresh state per distinct declared name, in first-declaration order. */
  lemma {:induction false} AddStateNamesFresh(names: seq<string>)
    ensures AddStateNames([], names) == FreshStates(Distinct(names))
  {
    if names != [] {
      AddStateNamesFresh(Init(names));
      AddStateNameFresh(Distinct(Init(names)), Last(names));
    }
  }

  /** `state.superStates.add(...)` for every super-state name that resolves. */
  function ResolveSupers(names: seq<string>, acc: seq<nat>, supers: seq<string>): (r: seq<nat>)
    ensures NoDuplicates(acc) ==> NoDuplicates(r)
    ensures (forall q :: q in acc ==> q < |names|) ==> forall q :: q in r ==> q < |names|
  {
    if supers == [] then acc
    else
      var acc2 := ResolveSupers(names, acc, Init(supers));
      match Lookup(names, Last(supers))
      case None => acc2
      case Some(q) => AddToSet(acc2, q)
  }

  /** Resolving one more super-state name adds its index when it names a state. */
  lemma ResolveSupersStep(names: seq<string>, acc: seq<nat>, supers: seq<string>, j: nat)
    requires j < |supers|
    ensures var prev := ResolveSupers(names, acc, supers[..j]);
      ResolveSupers(names, acc, supers[..j + 1]) ==
        if Lookup(names, supers[j]).Some? then AddToSet(prev, Lookup(names, supers[j]).value) else prev
  {
    assert Init(supers[..j + 1]) == supers[..j] && Last(supers[..j + 1]) == supers[j];
  }

  /** `compileTransition`: a null next state is the owning state; another resolves by name (or is null). */
  function CompileTransition(names: seq<string>, owner: nat, st: SubTransition): (r: SemanticTransition)
    requires owner < |names|
    ensures r.event == st.event && r.actions == st.actions
    ensures st.nextState.None? ==> r.nextState == Some(owner)
    ensures st.nextState.Some? ==>
      (r.nextState.Some? <==> st.nextState.value in names) &&
      (r.nextState.Some? ==> r.nextState.value < |names| && names[r.nextState.value] == st.nextState.value)
  {
    SemanticTransition(st.event, if st.nextState.None? then Some(owner) else Lookup(names, st.nextState.value), st.actions)
  }

  function CompileTransitions(names: seq<string>, owner: nat, subs: seq<SubTransition>): (r: seq<SemanticTransition>)
    requires owner < |names|
    ensures |r| == |subs| && forall j :: 0 <= j < |subs| ==> r[j] == CompileTransition(names, owner, subs[j])
  {
    seq(|subs|, j requires 0 <= j < |subs| => CompileTransition(names, owner, subs[j]))
  }

  /** `compileState`'s update of one state: actions appended, abstraction or-ed, super-states resolved. */
  function CompiledState(names: seq<string>, s: SemanticState, t: Transition): SemanticState
  {
    s.(entryActions := s.entryActions + t.state.entryActions,
       exitActions := s.exitActions + t.state.exitActions,
       isAbstractState := s.isAbstractState || t.state.isAbstractState,
       superStates := ResolveSupers(names, s.superStates, t.state.superStates))
  }

  /** The state one logic entry updates: `compileState`, then `compileTransitions`. */
  function Updated(names: seq<string>, s: SemanticState, k: nat, t: Transition): SemanticState
    requires k < |names|
  {
    var c := CompiledState(names, s, t);
    c.(transitions := c.transitions + CompileTransitions(names, k, t.subTransitions))
  }

  /** `compileState` followed by `compileTransitions` for one logic entry. */
  function CompileEntry(states: seq<SemanticState>, t: Transition): seq<SemanticState>
  {
    var names := Names(states);
    match Lookup(names, t.state.name)
    case None => states
    case Some(k) =>
      states[k := Updated(names, states[k], k, t)]
  }

  function CompileLogic(states: seq<SemanticState>, logic: seq<Transition>): seq<SemanticState>
  {
    if logic == [] then states else CompileEntry(CompileLogic(states, Init(logic)), Last(logic))
  }

  /** `compileHeaders`' initial state: only a non-empty initial value is looked up. */
  function CompileInitial(names: seq<string>, initial: Option<string>): (r: Option<nat>)
    ensures r.Some? <==> initial.Some? && initial.value != "" && initial.value in names
    ensures r.Some? ==> r.value < |names| && names[r.value] == initial.value
  {
    if initial.Some? && initial.value != "" then Lookup(names, initial.value) else None
  }

  // ---------------------------------------------------------------------
  // What compiling gives each state

  function EntriesFor(logic: seq<Transition>, name: string): seq<string>
  {
    if logic == [] then []
    else EntriesFor(Init(logic), name) + (if Last(logic).state.name == name then Last(logic).state.entryActions else [])
  }

  function ExitsFor(logic: seq<Transition>, name: string): seq<string>
  {
    if logic == [] then []
    else ExitsFor(Init(logic), name) + (if Last(logic).state.name == name then Last(logic).state.exitActions else [])
  }

  function SupersFor(logic: seq<Transition>, name: string): seq<string>
  {
    if logic == [] then []
    else SupersFor(Init(logic), name) + (if Last(logic).state.name == name then Last(logic).state.superStates else [])
  }

  function AbstractFor(logic: seq<Transition>, name: string): bool
  {
    if logic == [] then false
    else AbstractFor(Init(logic), name) || (Last(logic).state.name == name && Last(logic).state.isAbstractState)
  }

  /** A state is declared abstract when any of its declarations says so. */
  lemma {:induction false} AbstractForMeaning(logic: seq<Transition>, name: string)
    ensures AbstractFor(logic, name) <==>
      exists i :: 0 <= i < |logic| && logic[i].state.name == name && logic[i].state.isAbstractState
  {
    if logic != [] {
      var p := Init(logic);
      AbstractForMeaning(p, name);
      assert forall i :: 0 <= i < |p| ==> p[i] == logic[i];
      if AbstractFor(logic, name) && !AbstractFor(p, name) {
        assert logic[|logic| - 1] == Last(logic);
      }
    }
  }

  function TransitionsFor(names: seq<string>, k: nat, logic: seq<Transition>): seq<SemanticTransition>
    requires k < |names|
  {
    if logic == [] then []
    else
      TransitionsFor(names, k, Init(logic)) +
        (if Last(logic).state.name == names[k] then CompileTransitions(names, k, Last(logic).subTransitions) else [])
  }

  lemma {:induction false} ResolveSupersAppend(names: seq<string>, acc: seq<nat>, a: seq<string>, b: seq<string>)
    ensures ResolveSupers(names, acc, a + b) == ResolveSupers(names, ResolveSupers(names, acc, a), b)
  {
    if b == [] {
      assert a + b == a;
    } else {
      ResolveSupersAppend(names, acc, a, Init(b));
      assert Init(a + b) == a + Init(b);
    }
  }

  lemma CompileEntryAt(states: seq<SemanticState>, t: Transition, k: nat)
    requires k < |states| && NoDuplicates(Names(states))
    ensures |CompileEntry(states, t)| == |states|
    ensures Names(CompileEntry(states, t)) == Names(states)
    ensures CompileEntry(states, t)[k] ==
      if t.state.name == states[k].name then Updated(Names(states), states[k], k, t) else states[k]
  {
    var names := Names(states);
    LookupUnique(names, k);
    var r := CompileEntry(states, t);
    assert forall i :: 0 <= i < |states| ==> r[i].name == states[i].name;
  }

  lemma {:induction false} CompileLogicNames(states: seq<SemanticState>, logic: seq<Transition>)
    requires NoDuplicates(Names(states))
    ensures |CompileLogic(states, logic)| == |states|
    ensures Names(CompileLogic(states, logic)) == Names(states)
  {
    if logic != [] {
      CompileLogicNames(states, Init(logic));
      if |states| > 0 {
        CompileEntryAt(CompileLogic(states, Init(logic)), Last(logic), 0);
      }
    }
  }

  /** The last logic entry updates state `k` exactly when it declares that state. */
  lemma CompileLogicStep(states: seq<SemanticState>, logic: seq<Transition>, k: nat)
    requires k < |states| && NoDuplicates(Names(states)) && logic != []
    ensures |CompileLogic(states, logic)| == |states|
    ensures CompileLogic(states, logic)[k] ==
      var before := CompileLogic(states, Init(logic));
      if Last(logic).state.name == states[k].name then Updated(Names(states), before[k], k, Last(logic)) else before[k]
  {
    var before := CompileLogic(states, Init(logic));
    CompileLogicNames(states, Init(logic));
    assert before[k].name == states[k].name by {
      assert Names(before)[k] == Names(states)[k];
    }
    CompileEntryAt(before, Last(logic), k);
  }

  /** After compiling, state `k` carries the entry actions of all its declarations, in order. */
  lemma {:induction false} CompileEntryActions(states: seq<SemanticState>, logic: seq<Transition>, k: nat)
    requires k < |states| && NoDuplicates(Names(states))
    ensures |CompileLogic(states, logic)| == |states|
    ensures CompileLogic(states, logic)[k].entryActions == states[k].entryActions + EntriesFor(logic, states[k].name)
  {
    CompileLogicNames(states, logic);
    if logic != [] {
      CompileEntryActions(states, Init(logic), k);
      CompileLogicStep(states, logic, k);
      if Last(logic).state.name != states[k].name {
        assert EntriesFor(logic, states[k].name) == EntriesFor(Init(logic), states[k].name) + [];
      }
    }
  }

  /** After compiling, state `k` carries the exit actions of all its declarations, in order. */
  lemma {:induction false} CompileExitActions(states: seq<SemanticState>, logic: seq<Transition>, k: nat)
    requires k < |states| && NoDuplicates(Names(states))
    ensures |CompileLogic(states, logic)| == |states|
    ensures CompileLogic(states, logic)[k].exitActions == states[k].exitActions + ExitsFor(logic, states[k].name)
  {
    CompileLogicNames(states, logic);
    if logic != [] {
      CompileExitActions(states, Init(logic), k);
      CompileLogicStep(states, logic, k);
      if Last(logic).state.name != states[k].name {
        assert ExitsFor(logic, states[k].name) == ExitsFor(Init(logic), states[k].name) + [];
      }
    }
  }

  /** After compiling, state `k` is abstract when it was or when any of its declarations says so. */
  lemma {:induction false} CompileAbstract(states: seq<SemanticState>, logic: seq<Transition>, k: nat)
    requires k < |states| && NoDuplicates(Names(states))
    ensures |CompileLogic(states, logic)| == |states|
    ensures CompileLogic(states, logic)[k].isAbstractState == (states[k].isAbstractState ||
      exists i :: 0 <= i < |logic| && logic[i].state.name == states[k].name && logic[i].state.isAbstractState)
  {
    CompileLogicNames(states, logic);
    CompileAbstractFor(states, logic, k);
    AbstractForMeaning(logic, states[k].name);
  }

  lemma {:induction false} CompileAbstractFor(states: seq<SemanticState>, logic: seq<Transition>, k: nat)
    requires k < |states| && NoDuplicates(Names(states))
    ensures |CompileLogic(states, logic)| == |states|
    ensures CompileLogic(states, logic)[k].isAbstractState == (states[k].isAbstractState || AbstractFor(logic, states[k].name))
  {
    CompileLogicNames(states, logic);
    if logic != [] {
      CompileAbstractFor(states, Init(logic), k);
      CompileLogicStep(states, logic, k);
    }
  }

  /** After compiling, state `k`'s super-states are those all its declarations name, resolved and without repeats. */
  lemma {:induction false} CompileSuperStates(states: seq<SemanticState>, logic: seq<Transition>, k: nat)
    requires k < |states| && NoDuplicates(Names(states))
    ensures |CompileLogic(states, logic)| == |states|
    ensures CompileLogic(states, logic)[k].superStates ==
      ResolveSupers(Names(states), states[k].superStates, SupersFor(logic, states[k].name))
  {
    CompileLogicNames(states, logic);
    if logic != [] {
      var name := states[k].name;
      CompileSuperStates(states, Init(logic), k);
      CompileLogicStep(states, logic, k);
      if Last(logic).state.name == name {
        ResolveSupersAppend(Names(states), states[k].superStates, SupersFor(Init(logic), name), Last(logic).state.superStates);
      } else {
        assert SupersFor(logic, name) == SupersFor(Init(logic), name) + [];
        assert SupersFor(Init(logic), name) + [] == SupersFor(Init(logic), name);
      }
    }
  }

  /** After compiling, state `k` carries the compiled transitions of all its declarations, in order. */
  lemma {:induction false} CompileTransitionsOf(states: seq<SemanticState>, logic: seq<Transition>, k: nat)
    requires k < |states| && NoDuplicates(Names(states))
    ensures |CompileLogic(states, logic)| == |states|
    ensures CompileLogic(states, logic)[k].transitions == states[k].transitions + TransitionsFor(Names(states), k, logic)
  {
    CompileLogicNames(states, logic);
    if logic != [] {
      CompileTransitionsOf(states, Init(logic), k);
      CompileLogicStep(states, logic, k);
      if Last(logic).state.name != states[k].name {
        assert TransitionsFor(Names(states), k, logic) == TransitionsFor(Names(states), k, Init(logic)) + [];
      }
    }
  }

  /** Every super-state edge of the parsed logic lowers `rank`: the declared hierarchy is acyclic. */
  ghost predicate SyntaxRanked(logic: seq<Transition>, rank: map<string, nat>)
  {
    forall i, k :: 0 <= i < |logic| && 0 <= k < |logic[i].state.superStates| ==>
      logic[i].state.name in rank && logic[i].state.superStates[k] in rank &&
      rank[logic[i].state.superStates[k]] < rank[logic[i].state.name]
  }

  ghost predicate Acyclic(logic: seq<Transition>)
  {
    exists rank :: SyntaxRanked(logic, rank)
  }

  /** A rank for the arena, read off the names. */
  ghost function ArenaRank(states: seq<SemanticState>, rank: map<string, nat>): seq<nat>
  {
    seq(|states|, i requires 0 <= i < |states| => if states[i].name in rank then rank[states[i].name] else 0)
  }

  /** Super-state `q` (an arena index) ranks below the state named `name`. */
  ghost predicate Below(names: seq<string>, q: nat, rank: map<string, nat>, name: string)
  {
    q < |names| && names[q] in rank && name in rank && rank[names[q]] < rank[name]
  }

  /** One compiled state: its references are in range and its super-states rank below it. */
  ghost predicate GoodState(names: seq<string>, s: SemanticState, rank: map<string, nat>)
  {
    (forall q :: q in s.superStates ==> Below(names, q, rank, s.name)) &&
    (forall tr :: tr in s.transitions && tr.nextState.Some? ==> tr.nextState.value < |names|)
  }

  lemma GoodStatesRanked(states: seq<SemanticState>, rank: map<string, nat>)
    requires forall i :: 0 <= i < |states| ==> GoodState(Names(states), states[i], rank)
    ensures RefsInRange(states) && Ranked(states, ArenaRank(states, rank))
  {
    forall i, k | 0 <= i < |states| && 0 <= k < |states[i].superStates|
      ensures states[i].superStates[k] < |states| && ArenaRank(states, rank)[states[i].superStates[k]] < ArenaRank(states, rank)[i]
    {
      assert GoodState(Names(states), states[i], rank);
      assert states[i].superStates[k] in states[i].superStates;
    }
    forall i, k | 0 <= i < |states| && 0 <= k < |states[i].transitions| && states[i].transitions[k].nextState.Some?
      ensures states[i].transitions[k].nextState.value < |states|
    {
      assert GoodState(Names(states), states[i], rank);
      assert states[i].transitions[k] in states[i].transitions;
    }
  }

  lemma {:induction false} ResolveSupersRanked(names: seq<string>, acc: seq<nat>, supers: seq<string>, rank: map<string, nat>, name: string)
    requires forall q :: q in acc ==> Below(names, q, rank, name)
    requires forall x :: x in supers ==> x in rank && name in rank && rank[x] < rank[name]
    ensures forall q :: q in ResolveSupers(names, acc, supers) ==> Below(names, q, rank, name)
  {
    if supers != [] {
      assert forall x :: x in Init(supers) ==> x in supers;
      ResolveSupersRanked(names, acc, Init(supers), rank, name);
      var acc2 := ResolveSupers(names, acc, Init(supers));
      match Lookup(names, Last(supers))
      case None =>
      case Some(q) =>
        forall x | x in AddToSet(acc2, q) ensures Below(names, x, rank, name) {
          AddToSetMembers(acc2, q, x);
        }
    }
  }

  /** Updating a good state with an entry of an acyclic description keeps it good. */
  lemma UpdatedGood(names: seq<string>, s: SemanticState, k: nat, t: Transition, all: seq<Transition>, rank: map<string, nat>)
    requires k < |names| && GoodState(names, s, rank) && s.name == t.state.name
    requires SyntaxRanked(all, rank) && t in all
    ensures GoodState(names, Updated(names, s, k, t), rank)
  {
    var ti :| 0 <= ti < |all| && all[ti] == t;
    forall x | x in t.state.superStates ensures x in rank && s.name in rank && rank[x] < rank[s.name] {
      var j :| 0 <= j < |t.state.superStates| && t.state.superStates[j] == x;
      assert all[ti].state.superStates[j] == x;
    }
    ResolveSupersRanked(names, s.superStates, t.state.superStates, rank, s.name);
    var added := CompileTransitions(names, k, t.subTransitions);
    forall tr | tr in s.transitions + added && tr.nextState.Some? ensures tr.nextState.value < |names| {
      if tr !in s.transitions {
        var j :| 0 <= j < |added| && added[j] == tr;
      }
    }
  }

  /** Compiling an acyclic description yields an arena whose references are in range and whose edges lower the rank. */
  lemma {:induction false} CompileLogicGood(states: seq<SemanticState>, logic: seq<Transition>, all: seq<Transition>, rank: map<string, nat>)
    requires SyntaxRanked(all, rank) && logic <= all && NoDuplicates(Names(states))
    requires forall i :: 0 <= i < |states| ==> GoodState(Names(states), states[i], rank)
    ensures |CompileLogic(states, logic)| == |states|
    ensures forall i :: 0 <= i < |states| ==> GoodState(Names(states), CompileLogic(states, logic)[i], rank)
  {
    CompileLogicNames(states, logic);
    if logic != [] {
      CompileLogicGood(states, Init(logic), all, rank);
      var before := CompileLogic(states, Init(logic));
      CompileLogicNames(states, Init(logic));
      forall i | 0 <= i < |states| ensures GoodState(Names(states), CompileLogic(states, logic)[i], rank) {
        CompileLogicStep(states, logic, i);
        if Last(logic).state.name == states[i].name {
          assert before[i].name == states[i].name by {
            assert Names(before)[i] == Names(states)[i];
          }
          assert logic[|logic| - 1] == Last(logic);
          assert all[|logic| - 1] == Last(logic);
          UpdatedGood(Names(states), before[i], i, Last(logic), all, rank);
        }
      }
    }
  }

  /** The compiled arena of an acyclic description is well formed and ranked. */
  lemma CompileLogicRanked(states: seq<SemanticState>, logic: seq<Transition>, rank: map<string, nat>)
    requires SyntaxRanked(logic, rank) && NoDuplicates(Names(states))
    requires forall i :: 0 <= i < |states| ==> states[i].superStates == [] && states[i].transitions == []
    ensures RefsInRange(CompileLogic(states, logic))
    ensures Ranked(CompileLogic(states, logic), ArenaRank(CompileLogic(states, logic), rank))
  {
    CompileLogicGood(states, logic, logic, rank);
    CompileLogicNames(states, logic);
    GoodStatesRanked(CompileLogic(states, logic), rank);
  }
}
