/**
 * The `SemanticAnalyzer` class: `analyze` classifies the headers, runs the
 * validity checks and, only when no error was found, compiles the syntax into
 * the semantic state machine and crawls its super-state hierarchy. Each
 * method is proved against the functions of `AnalyzerHeaders`,
 * `AnalyzerChecks`, `AnalyzerCompile` and `SuperClassCrawling`.
 */
module SemanticAnalysis {
  import opened Wrappers
  import opened Strings
  import opened OrderedSets
  import opened FsmSyntax
  import opened AnalysisErrors
  import opened SemanticStateMachines
  import opened AnalyzerHeaders
  import opened AnalyzerChecks
  import opened AnalyzerCompile
  import opened SuperClassCrawling

  /** `checkSemanticValidity`'s errors, against the declared names. */
  function ValidityErrors(logic: seq<Transition>, declared: seq<string>, initial: Option<string>): seq<AnalysisError>
  {
    UndefinedErrors(logic, declared, initial) +
    UnusedErrors(declared, UsedStates(logic, initial)) +
    DuplicateErrors(KeyList(logic)) +
    AbstractTargetErrors(logic, AbstractNames(logic)) +
    MultiplyDefined(logic).1
  }

  /** The errors `analyze` finds before it decides whether to compile. */
  function PreErrors(fsm: FsmSyntax, slots: HeaderSlots): seq<AnalysisError>
  {
    var (slots2, headerErrors) := AnalyzerHeaders.SetHeaders(fsm.headers, slots);
    headerErrors + MissingHeaderErrors(slots2) + ValidityErrors(fsm.logic, DeclaredNames(fsm.logic), slots2.initial.value)
  }

  /** What `analyze` leaves before compiling: the header and validity errors, the warnings and the lists. */
  ghost function CheckedValue(fsm: FsmSyntax, slots: HeaderSlots): MachineValue
  {
    var logic := fsm.logic;
    MachineValue(PreErrors(fsm, slots), InconsistentAbstractionWarnings(logic, AbstractNames(logic)),
      FreshStates(DeclaredNames(logic)), Distinct(EventList(logic)),
      Distinct(EntryExitList(logic) + TransitionActionList(logic)), None, None, None)
  }

  /**
   * What `analyze` leaves in the new machine, given the analyzer's header
   * slots before the call: the lists and checks always, the compiled states,
   * headers and crawler errors only when no error was found before.
   */
  ghost function AnalysisResult(fsm: FsmSyntax, slots: HeaderSlots, rank: map<string, nat>): MachineValue
    requires SyntaxRanked(fsm.logic, rank)
  {
    if PreErrors(fsm, slots) != [] then CheckedValue(fsm, slots) else CompiledValue(fsm, slots, rank)
  }

  /** The checked machine with the compiled states, the header values and the crawler's errors. */
  ghost function CompiledValue(fsm: FsmSyntax, slots: HeaderSlots, rank: map<string, nat>): MachineValue
    requires SyntaxRanked(fsm.logic, rank)
  {
    var logic := fsm.logic;
    var slots2 := AnalyzerHeaders.SetHeaders(fsm.headers, slots).0;
    var declared := DeclaredNames(logic);
    MachineValue(CrawlErrors(FreshStates(declared), logic, rank), InconsistentAbstractionWarnings(logic, AbstractNames(logic)),
      CompileLogic(FreshStates(declared), logic), Distinct(EventList(logic)),
      Distinct(EntryExitList(logic) + TransitionActionList(logic)),
      CompileInitial(declared, slots2.initial.value), slots2.actions.value, slots2.fsm.value)
  }

  /** A fresh arena has no super states and no transitions, so every state in it is well formed. */
  lemma FreshStatesGood(names: seq<string>, rank: map<string, nat>)
    ensures forall i :: 0 <= i < |names| ==> GoodState(names, FreshStates(names)[i], rank)
  {
  }

  /** The crawler's errors on the arena compiled from `states`. */
  ghost function CrawlErrors(states: seq<SemanticState>, logic: seq<Transition>, rank: map<string, nat>): seq<AnalysisError>
    requires SyntaxRanked(logic, rank) && NoDuplicates(Names(states))
    requires forall i :: 0 <= i < |states| ==> GoodState(Names(states), states[i], rank)
  {
    var compiled := CompileLogic(states, logic);
    CompileLogicGood(states, logic, logic, rank);
    CompileLogicNames(states, logic);
    GoodStatesRanked(compiled, rank);
    CrawlStates(compiled, ArenaRank(compiled, rank), [], |compiled|)
  }

  /**
   * What one `analyze` call yields: with an error before compilation, exactly
   * those errors and the bare declared states; without one, the declared
   * states compiled with every reference in range, an initial state that
   * names the initial header, and only crawler conflicts as errors.
   */
  lemma {:induction false} AnalysisOutcome(fsm: FsmSyntax, slots: HeaderSlots, rank: map<string, nat>)
    requires SyntaxRanked(fsm.logic, rank)
    ensures var r := AnalysisResult(fsm, slots, rank);
      var declared := DeclaredNames(fsm.logic);
      Names(r.states) == declared &&
      (PreErrors(fsm, slots) != [] ==> r.errors == PreErrors(fsm, slots) && r.states == FreshStates(declared) && r.initialState.None?) &&
      (PreErrors(fsm, slots) == [] ==>
        RefsInRange(r.states) &&
        (forall i :: 0 <= i < |r.errors| ==> r.errors[i].id == ConflictingSuperstates) &&
        (r.initialState.Some? ==>
           r.initialState.value < |r.states| &&
           Some(r.states[r.initialState.value].name) == AnalyzerHeaders.SetHeaders(fsm.headers, slots).0.initial.value))
  {
    if PreErrors(fsm, slots) == [] {
      AnalysisCompiles(fsm, slots, rank);
    }
  }

  /** Without an error before compilation, the compiled arena and the crawler's conflicts. */
  lemma AnalysisCompiles(fsm: FsmSyntax, slots: HeaderSlots, rank: map<string, nat>)
    requires SyntaxRanked(fsm.logic, rank)
    ensures var r := CompiledValue(fsm, slots, rank);
      Names(r.states) == DeclaredNames(fsm.logic) && RefsInRange(r.states) &&
      (forall i :: 0 <= i < |r.errors| ==> r.errors[i].id == ConflictingSuperstates) &&
      (r.initialState.Some? ==>
         r.initialState.value < |r.states| &&
         Some(r.states[r.initialState.value].name) == AnalyzerHeaders.SetHeaders(fsm.headers, slots).0.initial.value)
  {
    var declared := DeclaredNames(fsm.logic);
    FreshStatesGood(declared, rank);
    CompiledArena(FreshStates(declared), fsm.logic, rank);
  }

  /** Compiling keeps the names, leaves every reference in range, and the crawler adds only conflicts. */
  lemma CompiledArena(states: seq<SemanticState>, logic: seq<Transition>, rank: map<string, nat>)
    requires SyntaxRanked(logic, rank) && NoDuplicates(Names(states))
    requires forall i :: 0 <= i < |states| ==> GoodState(Names(states), states[i], rank)
    ensures Names(CompileLogic(states, logic)) == Names(states) && RefsInRange(CompileLogic(states, logic))
    ensures var e := CrawlErrors(states, logic, rank);
      forall i :: 0 <= i < |e| ==> e[i].id == ConflictingSuperstates
  {
    var compiled := CompileLogic(states, logic);
    CompileLogicNames(states, logic);
    CompileLogicGood(states, logic, logic, rank);
    GoodStatesRanked(compiled, rank);
    CrawlAddsOnlyConflicts(compiled, ArenaRank(compiled, rank), [], |compiled|);
  }

  /** Appending five error lists one after the other is appending their concatenation. */
  lemma AppendFive<T>(e: seq<T>, u: seq<T>, n: seq<T>, d: seq<T>, a: seq<T>, md: seq<T>)
    ensures e + u + n + d + a + md == e + (u + n + d + a + md)
  {
    calc {
      e + u + n + d + a + md;
      e + (u + n) + d + a + md;
      e + (u + n + d) + a + md;
      e + (u + n + d + a) + md;
      e + (u + n + d + a + md);
    }
  }

  /** The state, event and action lists built from empty ones are the distinct names in order. */
  lemma ListsFromEmpty(logic: seq<Transition>)
    ensures AddStateNames([], NameList(logic)) == FreshStates(DeclaredNames(logic))
    ensures AddAll([], EventList(logic)) == Distinct(EventList(logic))
    ensures AddAll(AddAll([], EntryExitList(logic)), TransitionActionList(logic)) ==
      Distinct(EntryExitList(logic) + TransitionActionList(logic))
  {
    AddStateNamesFresh(NameList(logic));
    AddAllFromEmpty(EventList(logic));
    AddAllAppend([], EntryExitList(logic), TransitionActionList(logic));
    AddAllFromEmpty(EntryExitList(logic) + TransitionActionList(logic));
  }

  /** Adding a list to an empty ordered set gives its distinct elements in order. */
  lemma AddAllFromEmpty(xs: seq<string>)
    ensures AddAll([], xs) == Distinct(xs)
  {
    assert Distinct<string>([]) == [];
    DistinctAppend([], xs);
    assert [] + xs == xs;
  }

  class SemanticAnalyzer {
    var semanticStateMachine: SemanticStateMachine
    var fsmHeader: Header
    var actionsHeader: Header
    var initialHeader: Header

    constructor()
      ensures Slots() == FreshSlots
    {
      semanticStateMachine := new SemanticStateMachine();
      fsmHeader := NullHeader;
      actionsHeader := NullHeader;
      initialHeader := NullHeader;
    }

    function Slots(): HeaderSlots
      reads this
    {
      HeaderSlots(fsmHeader, actionsHeader, initialHeader)
    }

    function Machine(): MachineValue
      reads this, semanticStateMachine
    {
      semanticStateMachine.Value()
    }

    /**
     * `analyze`: a new machine, the headers, the validity checks, and the
     * compiled machine when there were no errors. The header slots are not
     * reset between calls. The super-state hierarchy must be acyclic.
     */
    method Analyze(fsm: FsmSyntax, ghost rank: map<string, nat>) returns (m: SemanticStateMachine)
      requires SyntaxRanked(fsm.logic, rank)
      modifies this
      ensures fresh(m) && m == semanticStateMachine
      ensures Slots() == AnalyzerHeaders.SetHeaders(fsm.headers, old(Slots())).0
      ensures m.Value() == AnalysisResult(fsm, old(Slots()), rank)
    {
      semanticStateMachine := new SemanticStateMachine();
      CheckHeadersAndValidity(fsm);
      ghost var declared := DeclaredNames(fsm.logic);
      FreshStatesGood(declared, rank);
      ProduceSemanticStateMachine(fsm, rank);
      m := semanticStateMachine;
    }

    /** The part of `analyze` before `produceSemanticStateMachine`, on a new machine. */
    method CheckHeadersAndValidity(fsm: FsmSyntax)
      requires Machine() == MachineValue([], [], [], [], [], None, None, None)
      modifies this, semanticStateMachine
      ensures semanticStateMachine == old(semanticStateMachine)
      ensures Slots() == AnalyzerHeaders.SetHeaders(fsm.headers, old(Slots())).0
      ensures Machine() == CheckedValue(fsm, old(Slots()))
    {
      var logic := fsm.logic;
      ghost var slots := Slots();
      AnalyzeHeaders(fsm);
      assert Machine().errors == AnalyzerHeaders.SetHeaders(fsm.headers, slots).1 + MissingHeaderErrors(Slots());
      CheckSemanticValidity(fsm);
      ListsFromEmpty(logic);
    }

    method CheckSemanticValidity(fsm: FsmSyntax)
      modifies semanticStateMachine
      ensures var states := AddStateNames(old(semanticStateMachine.states), NameList(fsm.logic));
        Machine() == old(Machine()).(
          states := states,
          events := AddAll(old(semanticStateMachine.events), EventList(fsm.logic)),
          actions := AddAll(AddAll(old(semanticStateMachine.actions), EntryExitList(fsm.logic)), TransitionActionList(fsm.logic)),
          errors := old(semanticStateMachine.errors) + ValidityErrors(fsm.logic, Names(states), initialHeader.value),
          warnings := old(semanticStateMachine.warnings) + InconsistentAbstractionWarnings(fsm.logic, AbstractNames(fsm.logic)))
    {
      CreateStateEventAndActionLists(fsm);
      ghost var m0 := Machine();
      ghost var declared := Names(semanticStateMachine.states);
      ghost var initial := initialHeader.value;
      ghost var u := UndefinedErrors(fsm.logic, declared, initial);
      ghost var n := UnusedErrors(declared, UsedStates(fsm.logic, initial));
      ghost var d := DuplicateErrors(KeyList(fsm.logic));
      ghost var a := AbstractTargetErrors(fsm.logic, AbstractNames(fsm.logic));
      ghost var w := InconsistentAbstractionWarnings(fsm.logic, AbstractNames(fsm.logic));
      ghost var md := MultiplyDefined(fsm.logic).1;
      CheckUndefinedStates(fsm);
      assert Machine() == m0.(errors := m0.errors + u);
      CheckForUnusedStates(fsm);
      assert Machine() == m0.(errors := m0.errors + u + n);
      CheckForDuplicateTransitions(fsm);
      assert Machine() == m0.(errors := m0.errors + u + n + d);
      CheckThatAbstractStatesAreNotTargets(fsm);
      assert Machine() == m0.(errors := m0.errors + u + n + d + a);
      CheckForInconsistentAbstraction(fsm);
      assert Machine() == m0.(errors := m0.errors + u + n + d + a, warnings := m0.warnings + w);
      CheckForMultiplyDefinedStateActions(fsm);
      assert Machine() == m0.(errors := m0.errors + u + n + d + a + md, warnings := m0.warnings + w);
      AppendFive(m0.errors, u, n, d, a, md);
      assert m0.states == AddStateNames(old(semanticStateMachine.states), NameList(fsm.logic));
    }

    // -------------------------------------------------------------------
    // produceSemanticStateMachine

    method ProduceSemanticStateMachine(fsm: FsmSyntax, ghost rank: map<string, nat>)
      requires SyntaxRanked(fsm.logic, rank) && NoDuplicates(Names(semanticStateMachine.states))
      requires forall i :: 0 <= i < |semanticStateMachine.states| ==>
        GoodState(Names(semanticStateMachine.states), semanticStateMachine.states[i], rank)
      modifies semanticStateMachine
      ensures old(semanticStateMachine.errors) != [] ==> Machine() == old(Machine())
      ensures old(semanticStateMachine.errors) == [] ==>
        Machine() == old(Machine()).(
          states := CompileLogic(old(semanticStateMachine.states), fsm.logic),
          initialState := CompileInitial(Names(old(semanticStateMachine.states)), initialHeader.value),
          actionClass := actionsHeader.value,
          fsmName := fsmHeader.value,
          errors := CrawlErrors(old(semanticStateMachine.states), fsm.logic, rank))
    {
      if |semanticStateMachine.errors| == 0 {
        CompileHeaders();
        ghost var start := semanticStateMachine.states;
        CompileLogicEntries(fsm);
        CompileLogicGood(start, fsm.logic, fsm.logic, rank);
        CompileLogicNames(start, fsm.logic);
        GoodStatesRanked(semanticStateMachine.states, rank);
        var crawler := new SuperClassCrawler(semanticStateMachine);
        crawler.CheckSuperClassTransitions(ArenaRank(semanticStateMachine.states, rank));
      }
    }

    /** The loop of `produceSemanticStateMachine`: `compileState` and `compileTransitions` per logic entry. */
    method CompileLogicEntries(fsm: FsmSyntax)
      requires NoDuplicates(Names(semanticStateMachine.states))
      modifies semanticStateMachine
      ensures Machine() == old(Machine()).(states := CompileLogic(old(semanticStateMachine.states), fsm.logic))
    {
      var logic := fsm.logic;
      ghost var start := semanticStateMachine.states;
      var i := 0;
      while i < |logic|
        invariant 0 <= i <= |logic|
        invariant Machine() == old(Machine()).(states := CompileLogic(start, logic[..i]))
      {
        assert Init(logic[..i + 1]) == logic[..i] && Last(logic[..i + 1]) == logic[i];
        CompileLogicNames(start, logic[..i]);
        ghost var before := semanticStateMachine.states;
        var state := CompileState(logic[i]);
        if state.Some? {
          ghost var mid := semanticStateMachine.states;
          assert Names(mid) == Names(before) by {
            assert forall j :: 0 <= j < |mid| ==> mid[j].name == before[j].name;
          }
          CompileTransitions(logic[i], state.value);
        }
        i := i + 1;
      }
      assert logic[..i] == logic;
    }

    method CompileHeaders()
      modifies semanticStateMachine
      ensures Machine() == old(Machine()).(
        initialState := CompileInitial(Names(semanticStateMachine.states), initialHeader.value),
        actionClass := actionsHeader.value,
        fsmName := fsmHeader.value)
    {
      if initialHeader.value.Some? && initialHeader.value.value != "" {
        semanticStateMachine.initialState := Lookup(Names(semanticStateMachine.states), initialHeader.value.value);
      } else {
        semanticStateMachine.initialState := None;
      }
      semanticStateMachine.actionClass := actionsHeader.value;
      semanticStateMachine.fsmName := fsmHeader.value;
    }

    /** `compileState`: the state named by the entry, updated; `None` when there is none. */
    method CompileState(t: Transition) returns (state: Option<nat>)
      modifies semanticStateMachine
      ensures state == Lookup(Names(old(semanticStateMachine.states)), t.state.name)
      ensures state.None? ==> Machine() == old(Machine())
      ensures state.Some? ==> Machine() == old(Machine()).(states := old(semanticStateMachine.states)[state.value :=
        CompiledState(Names(old(semanticStateMachine.states)), old(semanticStateMachine.states)[state.value], t)])
    {
      var names := Names(semanticStateMachine.states);
      state := Lookup(names, t.state.name);
      if state.None? {
        return;
      }
      var k := state.value;
      var s := semanticStateMachine.states[k];
      var base := s.(entryActions := s.entryActions + t.state.entryActions,
                     exitActions := s.exitActions + t.state.exitActions,
                     isAbstractState := s.isAbstractState || t.state.isAbstractState);
      semanticStateMachine.states := semanticStateMachine.states[k := base];
      AddSuperStates(k, names, t.state.superStates);
    }

    /**
     * The super-state loop of `compileState`: each super state that resolves is
     * added to state `k`'s set, gathered in a local and stored once at the end.
     */
    method AddSuperStates(k: nat, names: seq<string>, supers: seq<string>)
      requires k < |semanticStateMachine.states|
      modifies semanticStateMachine
      ensures Machine() == old(Machine()).(states := old(semanticStateMachine.states)[k :=
        old(semanticStateMachine.states)[k].(superStates := ResolveSupers(names, old(semanticStateMachine.states)[k].superStates, supers))])
    {
      var cur := semanticStateMachine.states[k];
      var superStates := cur.superStates;
      var j := 0;
      assert supers[..0] == [];
      while j < |supers|
        invariant 0 <= j <= |supers|
        invariant superStates == ResolveSupers(names, cur.superStates, supers[..j])
        modifies {}
      {
        ResolveSupersStep(names, cur.superStates, supers, j);
        var superState := Lookup(names, supers[j]);
        if superState.Some? {
          superStates := AddToSet(superStates, superState.value);
        }
        j := j + 1;
      }
      assert supers[..j] == supers;
      semanticStateMachine.states := semanticStateMachine.states[k := cur.(superStates := superStates)];
    }

    /** `compileTransitions`: each sub-transition compiled onto state `k`, in order. */
    method CompileTransitions(t: Transition, k: nat)
      requires k < |semanticStateMachine.states|
      modifies semanticStateMachine
      ensures Machine() == old(Machine()).(states := old(semanticStateMachine.states)[k :=
        old(semanticStateMachine.states)[k].(transitions := old(semanticStateMachine.states)[k].transitions +
          AnalyzerCompile.CompileTransitions(Names(old(semanticStateMachine.states)), k, t.subTransitions))])
    {
      var names := Names(semanticStateMachine.states);
      var s := semanticStateMachine.states[k];
      var subs := t.subTransitions;
      var j := 0;
      assert AnalyzerCompile.CompileTransitions(names, k, subs[..0]) == [];
      assert s.(transitions := s.transitions + []) == s;
      while j < |subs|
        invariant 0 <= j <= |subs|
        invariant Machine() == old(Machine()).(states := old(semanticStateMachine.states)[k :=
          s.(transitions := s.transitions + AnalyzerCompile.CompileTransitions(names, k, subs[..j]))])
      {
        assert AnalyzerCompile.CompileTransitions(names, k, subs[..j + 1]) ==
          AnalyzerCompile.CompileTransitions(names, k, subs[..j]) + [AnalyzerCompile.CompileTransition(names, k, subs[j])];
        assert Names(semanticStateMachine.states) == names by {
          assert forall i :: 0 <= i < |names| ==> semanticStateMachine.states[i].name == names[i];
        }
        ghost var prev := semanticStateMachine.states;
        assert prev[k] == s.(transitions := s.transitions + AnalyzerCompile.CompileTransitions(names, k, subs[..j]));
        CompileTransition(k, subs[j]);
        assert s.transitions + AnalyzerCompile.CompileTransitions(names, k, subs[..j + 1]) ==
          (s.transitions + AnalyzerCompile.CompileTransitions(names, k, subs[..j])) + [AnalyzerCompile.CompileTransition(names, k, subs[j])];
        assert semanticStateMachine.states == old(semanticStateMachine.states)[k :=
          s.(transitions := s.transitions + AnalyzerCompile.CompileTransitions(names, k, subs[..j + 1]))];
        j := j + 1;
      }
      assert subs[..j] == subs;
    }

    /** `compileTransition`: a null next state is the state itself, otherwise the named state or null. */
    method CompileTransition(k: nat, st: SubTransition)
      requires k < |semanticStateMachine.states|
      modifies semanticStateMachine
      ensures Machine() == old(Machine()).(states := old(semanticStateMachine.states)[k :=
        old(semanticStateMachine.states)[k].(transitions := old(semanticStateMachine.states)[k].transitions +
          [AnalyzerCompile.CompileTransition(Names(old(semanticStateMachine.states)), k, st)])])
    {
      var nextState := if st.nextState.None? then Some(k) else Lookup(Names(semanticStateMachine.states), st.nextState.value);
      var s := semanticStateMachine.states[k];
      semanticStateMachine.states := semanticStateMachine.states[k := s.(transitions := s.transitions + [SemanticTransition(st.event, nextState, st.actions)])];
    }

    // -------------------------------------------------------------------
    // Headers

    method AnalyzeHeaders(fsm: FsmSyntax)
      modifies this, semanticStateMachine
      ensures semanticStateMachine == old(semanticStateMachine)
      ensures Slots() == AnalyzerHeaders.SetHeaders(fsm.headers, old(Slots())).0
      ensures Machine() == old(Machine()).(errors := old(semanticStateMachine.errors) +
        AnalyzerHeaders.SetHeaders(fsm.headers, old(Slots())).1 + MissingHeaderErrors(Slots()))
    {
      SetHeaders(fsm);
      CheckMissingHeaders();
    }

    method SetHeaders(fsm: FsmSyntax)
      modifies this, semanticStateMachine
      ensures semanticStateMachine == old(semanticStateMachine)
      ensures Slots() == AnalyzerHeaders.SetHeaders(fsm.headers, old(Slots())).0
      ensures Machine() == old(Machine()).(errors := old(semanticStateMachine.errors) + AnalyzerHeaders.SetHeaders(fsm.headers, old(Slots())).1)
    {
      var hs := fsm.headers;
      var i := 0;
      while i < |hs|
        invariant 0 <= i <= |hs| && semanticStateMachine == old(semanticStateMachine)
        invariant Slots() == AnalyzerHeaders.SetHeaders(hs[..i], old(Slots())).0
        invariant Machine() == old(Machine()).(errors := old(semanticStateMachine.errors) + AnalyzerHeaders.SetHeaders(hs[..i], old(Slots())).1)
      {
        AnalyzerHeaders.SetHeadersStep(hs, i, old(Slots()));
        SetOneHeader(hs[i]);
        i := i + 1;
      }
      assert hs[..i] == hs;
    }

    /** One iteration of `setHeaders`: a known header goes to its slot, any other is reported. */
    method SetOneHeader(header: Header)
      modifies this, semanticStateMachine
      ensures semanticStateMachine == old(semanticStateMachine)
      ensures Slots() == AnalyzerHeaders.HeaderStep(old(Slots()), header).0
      ensures Machine() == old(Machine()).(errors := old(semanticStateMachine.errors) + AnalyzerHeaders.HeaderStep(old(Slots()), header).1)
    {
      var kind := KindOf(header);
      if kind != OtherKind {
        SetHeader(kind, header);
      } else {
        semanticStateMachine.AddError(AnalysisError(InvalidHeader, HeaderExtra(header)));
      }
    }

    /** `setHeader(target, header)`: fill the empty slot `kind`, or report the extra header. */
    method SetHeader(kind: HeaderKind, header: Header)
      requires kind != OtherKind
      modifies this, semanticStateMachine
      ensures semanticStateMachine == old(semanticStateMachine)
      ensures Slot(old(Slots()), kind).name.None? ==>
        Slots() == WithSlot(old(Slots()), kind, Header(header.name, header.value)) && Machine() == old(Machine())
      ensures Slot(old(Slots()), kind).name.Some? ==>
        Slots() == old(Slots()) &&
        Machine() == old(Machine()).(errors := old(semanticStateMachine.errors) + [AnalysisError(ExtraHeaderIgnored, HeaderExtra(header))])
    {
      var target := Slot(Slots(), kind);
      if target.name.None? {
        match kind
        case FsmKind => fsmHeader := Header(header.name, header.value);
        case ActionsKind => actionsHeader := Header(header.name, header.value);
        case InitialKind => initialHeader := Header(header.name, header.value);
      } else {
        semanticStateMachine.AddError(AnalysisError(ExtraHeaderIgnored, HeaderExtra(header)));
      }
    }

    method CheckMissingHeaders()
      modifies semanticStateMachine
      ensures Machine() == old(Machine()).(errors := old(semanticStateMachine.errors) + MissingHeaderErrors(Slots()))
    {
      if fsmHeader.name.None? {
        semanticStateMachine.AddError(AnalysisError(NoFsm, NoExtra));
      }
      if initialHeader.name.None? {
        semanticStateMachine.AddError(AnalysisError(NoInitial, NoExtra));
      }
    }

    // -------------------------------------------------------------------
    // State, event and action lists

    method AddStateNamesToStateList(fsm: FsmSyntax)
      modifies semanticStateMachine
      ensures Machine() == old(Machine()).(states := AddStateNames(old(semanticStateMachine.states), NameList(fsm.logic)))
    {
      var logic := fsm.logic;
      var i := 0;
      while i < |logic|
        invariant 0 <= i <= |logic|
        invariant Machine() == old(Machine()).(states := AddStateNames(old(semanticStateMachine.states), NameList(logic[..i])))
      {
        assert NameList(logic[..i + 1]) == NameList(logic[..i]) + [logic[i].state.name];
        AddStateNamesSnoc(old(semanticStateMachine.states), NameList(logic[..i]), logic[i].state.name);
        SetStateName(logic[i].state.name);
        i := i + 1;
      }
      assert logic[..i] == logic;
    }

    /** `states.set(name, new SemanticState(name))`: a fresh state replaces one of that name, or is appended. */
    method SetStateName(name: string)
      modifies semanticStateMachine
      ensures Machine() == old(Machine()).(states := AddStateName(old(semanticStateMachine.states), name))
    {
      var k := IndexOf(Names(semanticStateMachine.states), name);
      if k >= 0 {
        semanticStateMachine.states := semanticStateMachine.states[k := NewState(name)];
      } else {
        semanticStateMachine.states := semanticStateMachine.states + [NewState(name)];
      }
    }

    method AddEntryAndExitActionsToActionList(fsm: FsmSyntax)
      modifies semanticStateMachine
      ensures Machine() == old(Machine()).(actions := AddAll(old(semanticStateMachine.actions), EntryExitList(fsm.logic)))
    {
      var logic := fsm.logic;
      var start := semanticStateMachine.actions;
      var i := 0;
      while i < |logic|
        invariant 0 <= i <= |logic|
        invariant Machine() == old(Machine()).(actions := AddAll(start, EntryExitList(logic[..i])))
      {
        var t := logic[i];
        var done := EntryExitList(logic[..i]);
        assert EntryExitList(logic[..i + 1]) == done + t.state.entryActions + t.state.exitActions by {
          assert Init(logic[..i + 1]) == logic[..i];
        }
        AddActions(t.state.entryActions);
        AddAllAppend(start, done, t.state.entryActions);
        AddActions(t.state.exitActions);
        AddAllAppend(start, done + t.state.entryActions, t.state.exitActions);
        i := i + 1;
      }
      assert logic[..i] == logic;
    }

    /** `for (const a of list) actions.add(a)`. */
    method AddActions(list: seq<string>)
      modifies semanticStateMachine
      ensures Machine() == old(Machine()).(actions := AddAll(old(semanticStateMachine.actions), list))
    {
      var start := semanticStateMachine.actions;
      var k := 0;
      while k < |list|
        invariant 0 <= k <= |list|
        invariant Machine() == old(Machine()).(actions := AddAll(start, list[..k]))
      {
        assert list[..k + 1][..k] == list[..k];
        semanticStateMachine.actions := AddToSet(semanticStateMachine.actions, list[k]);
        k := k + 1;
      }
      assert list[..k] == list;
    }

    method AddEventsToEventList(fsm: FsmSyntax)
      modifies semanticStateMachine
      ensures Machine() == old(Machine()).(events := AddAll(old(semanticStateMachine.events), EventList(fsm.logic)))
    {
      var logic := fsm.logic;
      var start := semanticStateMachine.events;
      var i := 0;
      while i < |logic|
        invariant 0 <= i <= |logic|
        invariant Machine() == old(Machine()).(events := AddAll(start, EventList(logic[..i])))
      {
        var subs := logic[i].subTransitions;
        var done := EventList(logic[..i]);
        assert EventList(logic[..i + 1]) == done + SubEvents(subs) by {
          assert Init(logic[..i + 1]) == logic[..i];
        }
        AddSubEvents(subs);
        AddAllAppend(start, done, SubEvents(subs));
        i := i + 1;
      }
      assert logic[..i] == logic;
    }

    /** The inner loop of `addEventsToEventList`, for one logic entry. */
    method AddSubEvents(subs: seq<SubTransition>)
      modifies semanticStateMachine
      ensures Machine() == old(Machine()).(events := AddAll(old(semanticStateMachine.events), SubEvents(subs)))
    {
      var start := semanticStateMachine.events;
      var j := 0;
      while j < |subs|
        invariant 0 <= j <= |subs|
        invariant Machine() == old(Machine()).(events := AddAll(start, SubEvents(subs[..j])))
      {
        SubEventsStep(start, subs, j);
        if subs[j].event.Some? {
          semanticStateMachine.events := AddToSet(semanticStateMachine.events, subs[j].event.value);
        }
        j := j + 1;
      }
      assert subs[..j] == subs;
    }

    method AddTransitionActionsToActionList(fsm: FsmSyntax)
      modifies semanticStateMachine
      ensures Machine() == old(Machine()).(actions := AddAll(old(semanticStateMachine.actions), TransitionActionList(fsm.logic)))
    {
      var logic := fsm.logic;
      var start := semanticStateMachine.actions;
      var i := 0;
      while i < |logic|
        invariant 0 <= i <= |logic|
        invariant Machine() == old(Machine()).(actions := AddAll(start, TransitionActionList(logic[..i])))
      {
        var subs := logic[i].subTransitions;
        var done := TransitionActionList(logic[..i]);
        assert TransitionActionList(logic[..i + 1]) == done + SubActions(subs) by {
          assert Init(logic[..i + 1]) == logic[..i];
        }
        AddSubTransitionActions(subs);
        AddAllAppend(start, done, SubActions(subs));
        i := i + 1;
      }
      assert logic[..i] == logic;
    }

    /** The two inner loops of `addTransitionActionsToActionList`, for one logic entry. */
    method AddSubTransitionActions(subs: seq<SubTransition>)
      modifies semanticStateMachine
      ensures Machine() == old(Machine()).(actions := AddAll(old(semanticStateMachine.actions), SubActions(subs)))
    {
      var start := semanticStateMachine.actions;
      var j := 0;
      while j < |subs|
        invariant 0 <= j <= |subs|
        invariant Machine() == old(Machine()).(actions := AddAll(start, SubActions(subs[..j])))
      {
        assert SubActions(subs[..j + 1]) == SubActions(subs[..j]) + subs[j].actions by {
          assert Init(subs[..j + 1]) == subs[..j];
        }
        AddActions(subs[j].actions);
        AddAllAppend(start, SubActions(subs[..j]), subs[j].actions);
        j := j + 1;
      }
      assert subs[..j] == subs;
    }

    method CreateStateEventAndActionLists(fsm: FsmSyntax)
      modifies semanticStateMachine
      ensures Machine() == old(Machine()).(
        states := AddStateNames(old(semanticStateMachine.states), NameList(fsm.logic)),
        events := AddAll(old(semanticStateMachine.events), EventList(fsm.logic)),
        actions := AddAll(AddAll(old(semanticStateMachine.actions), EntryExitList(fsm.logic)), TransitionActionList(fsm.logic)))
    {
      AddStateNamesToStateList(fsm);
      AddEntryAndExitActionsToActionList(fsm);
      AddEventsToEventList(fsm);
      AddTransitionActionsToActionList(fsm);
    }

    // -------------------------------------------------------------------
    // checkUndefinedStates

    method CheckUndefinedStates(fsm: FsmSyntax)
      modifies semanticStateMachine
      ensures Machine() == old(Machine()).(errors := old(semanticStateMachine.errors) +
        UndefinedErrors(fsm.logic, Names(semanticStateMachine.states), initialHeader.value))
    {
      CheckUndefinedLogic(fsm.logic);
      if initialHeader.value.Some? && initialHeader.value.value !in Names(semanticStateMachine.states) {
        semanticStateMachine.AddError(Err(UndefinedState, "initial: " + initialHeader.value.value));
      }
    }

    /** The outer loop of `checkUndefinedStates`, over the logic entries. */
    method CheckUndefinedLogic(logic: seq<Transition>)
      modifies semanticStateMachine
      ensures Machine() == old(Machine()).(errors := old(semanticStateMachine.errors) +
        UndefinedLogicErrors(logic, Names(semanticStateMachine.states)))
    {
      var declared := Names(semanticStateMachine.states);
      var i := 0;
      while i < |logic|
        invariant 0 <= i <= |logic|
        invariant Machine() == old(Machine()).(errors := old(semanticStateMachine.errors) + UndefinedLogicErrors(logic[..i], declared))
      {
        CheckUndefinedEntry(logic[i]);
        UndefinedLogicStep(old(semanticStateMachine.errors), logic, i, declared);
        i := i + 1;
      }
      assert logic[..i] == logic;
    }

    /** The body of the outer loop of `checkUndefinedStates`: one logic entry's super-states, then its next states. */
    method CheckUndefinedEntry(t: Transition)
      modifies semanticStateMachine
      ensures Machine() == old(Machine()).(errors := old(semanticStateMachine.errors) +
        SuperErrors(t.state.superStates, Names(semanticStateMachine.states)) +
        NextStateErrors(t.subTransitions, Names(semanticStateMachine.states)))
    {
      CheckUndefinedSuperStates(t.state.superStates);
      CheckUndefinedNextStates(t.subTransitions);
    }

    /** The first inner loop of `checkUndefinedStates`. */
    method CheckUndefinedSuperStates(supers: seq<string>)
      modifies semanticStateMachine
      ensures Machine() == old(Machine()).(errors := old(semanticStateMachine.errors) +
        SuperErrors(supers, Names(semanticStateMachine.states)))
    {
      var j := 0;
      while j < |supers|
        invariant 0 <= j <= |supers|
        invariant Machine() == old(Machine()).(errors := old(semanticStateMachine.errors) +
          SuperErrors(supers[..j], Names(semanticStateMachine.states)))
      {
        assert Init(supers[..j + 1]) == supers[..j];
        CheckUndefinedState(Some(supers[j]), UndefinedSuperState);
        j := j + 1;
      }
      assert supers[..j] == supers;
    }

    /** The second inner loop of `checkUndefinedStates`. */
    method CheckUndefinedNextStates(subs: seq<SubTransition>)
      modifies semanticStateMachine
      ensures Machine() == old(Machine()).(errors := old(semanticStateMachine.errors) +
        NextStateErrors(subs, Names(semanticStateMachine.states)))
    {
      var j := 0;
      while j < |subs|
        invariant 0 <= j <= |subs|
        invariant Machine() == old(Machine()).(errors := old(semanticStateMachine.errors) +
          NextStateErrors(subs[..j], Names(semanticStateMachine.states)))
      {
        assert Init(subs[..j + 1]) == subs[..j];
        CheckUndefinedState(subs[j].nextState, UndefinedState);
        j := j + 1;
      }
      assert subs[..j] == subs;
    }

    /** `checkUndefinedState`: a non-null reference to an undeclared state is an error with that name. */
    method CheckUndefinedState(referencedState: Option<string>, errorCode: AnalysisErrorId)
      modifies semanticStateMachine
      ensures Machine() == old(Machine()).(errors := old(semanticStateMachine.errors) +
        (if referencedState.Some? && referencedState.value !in Names(semanticStateMachine.states)
         then [Err(errorCode, referencedState.value)] else []))
    {
      if referencedState.Some? && referencedState.value !in Names(semanticStateMachine.states) {
        semanticStateMachine.AddError(Err(errorCode, referencedState.value));
      }
    }

    // -------------------------------------------------------------------
    // checkForUnusedStates

    method CheckForUnusedStates(fsm: FsmSyntax)
      modifies semanticStateMachine
      ensures Machine() == old(Machine()).(errors := old(semanticStateMachine.errors) +
        UnusedErrors(Names(semanticStateMachine.states), UsedStates(fsm.logic, initialHeader.value)))
    {
      var used := FindUsedStates(fsm);
      FindStatesDefinedButNotUsed(used);
    }

    method FindStatesDefinedButNotUsed(usedStates: set<string>)
      modifies semanticStateMachine
      ensures Machine() == old(Machine()).(errors := old(semanticStateMachine.errors) +
        UnusedErrors(Names(semanticStateMachine.states), usedStates))
    {
      var defined := Names(semanticStateMachine.states);
      var i := 0;
      while i < |defined|
        invariant 0 <= i <= |defined|
        invariant Machine() == old(Machine()).(errors := old(semanticStateMachine.errors) + UnusedErrors(defined[..i], usedStates))
      {
        assert Init(defined[..i + 1]) == defined[..i];
        if defined[i] !in usedStates {
          semanticStateMachine.AddError(Err(UnusedState, defined[i]));
        }
        i := i + 1;
      }
      assert defined[..i] == defined;
    }

    /** `findUsedStates`: a non-empty initial value, every super-state and every next state. */
    method FindUsedStates(fsm: FsmSyntax) returns (usedStates: set<string>)
      ensures usedStates == UsedStates(fsm.logic, initialHeader.value)
    {
      usedStates := {};
      if initialHeader.value.Some? && initialHeader.value.value != "" {
        usedStates := usedStates + {initialHeader.value.value};
      }
      var supers := GetSuperStates(fsm);
      usedStates := AddAllUsed(usedStates, supers);
      var nexts := GetNextStates(fsm);
      usedStates := AddAllUsed(usedStates, nexts);
      DistinctSameSet(SuperNameList(fsm.logic));
      DistinctSameSet(NextNameList(fsm.logic));
    }

    /** `xs.forEach((s) => used.add(s))`. */
    static method AddAllUsed(used: set<string>, xs: seq<string>) returns (r: set<string>)
      ensures r == used + (set x | x in xs)
    {
      r := used;
      var k := 0;
      while k < |xs|
        invariant 0 <= k <= |xs|
        invariant r == used + (set x | x in xs[..k])
      {
        assert xs[..k + 1] == xs[..k] + [xs[k]];
        r := r + {xs[k]};
        k := k + 1;
      }
      assert xs[..k] == xs;
    }

    /** `getNextStates`: a transition without a next state stays in its own state. */
    method GetNextStates(fsm: FsmSyntax) returns (nextStates: seq<string>)
      ensures nextStates == Distinct(NextNameList(fsm.logic))
    {
      var logic := fsm.logic;
      nextStates := [];
      var i := 0;
      while i < |logic|
        invariant 0 <= i <= |logic|
        invariant nextStates == Distinct(NextNameList(logic[..i]))
      {
        NextNameListStep(logic, i);
        nextStates := AddNextStates(nextStates, logic[i].state.name, logic[i].subTransitions);
        DistinctAppend(NextNameList(logic[..i]), NextNames(logic[i].state.name, logic[i].subTransitions));
        i := i + 1;
      }
      assert logic[..i] == logic;
    }

    /** The inner loop of `getNextStates`. */
    method AddNextStates(acc: seq<string>, owner: string, subs: seq<SubTransition>) returns (r: seq<string>)
      ensures r == AddAll(acc, NextNames(owner, subs))
    {
      r := acc;
      var j := 0;
      while j < |subs|
        invariant 0 <= j <= |subs|
        invariant r == AddAll(acc, NextNames(owner, subs[..j]))
      {
        NextNamesStep(owner, subs, j);
        AddAllSnoc(acc, NextNames(owner, subs[..j]), subs[j].nextState.GetOr(owner));
        if subs[j].nextState.None? {
          r := AddToSet(r, owner);
        } else {
          r := AddToSet(r, subs[j].nextState.value);
        }
        j := j + 1;
      }
      assert subs[..j] == subs;
    }

    method GetSuperStates(fsm: FsmSyntax) returns (superStates: seq<string>)
      ensures superStates == Distinct(SuperNameList(fsm.logic))
    {
      var logic := fsm.logic;
      superStates := [];
      var i := 0;
      while i < |logic|
        invariant 0 <= i <= |logic|
        invariant superStates == Distinct(SuperNameList(logic[..i]))
      {
        assert Init(logic[..i + 1]) == logic[..i];
        superStates := AddEach(superStates, logic[i].state.superStates);
        DistinctAppend(SuperNameList(logic[..i]), logic[i].state.superStates);
        i := i + 1;
      }
      assert logic[..i] == logic;
    }

    // -------------------------------------------------------------------
    // checkForDuplicateTransitions

    method CheckForDuplicateTransitions(fsm: FsmSyntax)
      modifies semanticStateMachine
      ensures Machine() == old(Machine()).(errors := old(semanticStateMachine.errors) + DuplicateErrors(KeyList(fsm.logic)))
    {
      var logic := fsm.logic;
      var transitionKeys: seq<string> := [];
      var i := 0;
      while i < |logic|
        invariant 0 <= i <= |logic|
        invariant transitionKeys == Distinct(KeyList(logic[..i]))
        invariant Machine() == old(Machine()).(errors := old(semanticStateMachine.errors) + DuplicateErrors(KeyList(logic[..i])))
      {
        assert Init(logic[..i + 1]) == logic[..i];
        transitionKeys := CheckKeys(transitionKeys, logic[i].state.name, logic[i].subTransitions, KeyList(logic[..i]), old(semanticStateMachine.errors));
        i := i + 1;
      }
      assert logic[..i] == logic;
    }

    /** The inner loop of `checkForDuplicateTransitions`; `seen` are the keys met before. */
    method CheckKeys(keys: seq<string>, name: string, subs: seq<SubTransition>, ghost seen: seq<string>, ghost errors0: seq<AnalysisError>)
      returns (r: seq<string>)
      requires keys == Distinct(seen) && semanticStateMachine.errors == errors0 + DuplicateErrors(seen)
      modifies semanticStateMachine
      ensures r == Distinct(seen + SubKeys(name, subs))
      ensures Machine() == old(Machine()).(errors := errors0 + DuplicateErrors(seen + SubKeys(name, subs)))
    {
      r := keys;
      ghost var met := seen;
      var j := 0;
      assert seen + SubKeys(name, subs[..0]) == seen by {
        assert subs[..0] == [];
      }
      while j < |subs|
        invariant 0 <= j <= |subs|
        invariant met == seen + SubKeys(name, subs[..j])
        invariant r == Distinct(met)
        invariant semanticStateMachine.errors == errors0 + DuplicateErrors(met)
        invariant Machine() == old(Machine()).(errors := semanticStateMachine.errors)
      {
        var key := TransitionKey(name, subs[j].event);
        SubKeysStep(seen, name, subs, j);
        r := CheckKey(r, key, met, errors0);
        met := met + [key];
        j := j + 1;
      }
      assert subs[..j] == subs;
    }

    /** The body of the inner loop of `checkForDuplicateTransitions`: a key met before is reported, a new one remembered. */
    method CheckKey(keys: seq<string>, key: string, ghost met: seq<string>, ghost errors0: seq<AnalysisError>) returns (r: seq<string>)
      requires keys == Distinct(met) && semanticStateMachine.errors == errors0 + DuplicateErrors(met)
      modifies semanticStateMachine
      ensures r == Distinct(met + [key])
      ensures semanticStateMachine.errors == errors0 + DuplicateErrors(met + [key])
      ensures Machine() == old(Machine()).(errors := semanticStateMachine.errors)
    {
      DuplicateStep(met, key);
      r := keys;
      if key in keys {
        semanticStateMachine.AddError(Err(DuplicateTransition, key));
      } else {
        r := keys + [key];
      }
    }

    // -------------------------------------------------------------------
    // checkThatAbstractStatesAreNotTargets and checkForInconsistentAbstraction

    method CheckThatAbstractStatesAreNotTargets(fsm: FsmSyntax)
      modifies semanticStateMachine
      ensures Machine() == old(Machine()).(errors := old(semanticStateMachine.errors) +
        AbstractTargetErrors(fsm.logic, AbstractNames(fsm.logic)))
    {
      var logic := fsm.logic;
      var abstractStates := FindAbstractStates(fsm);
      var i := 0;
      while i < |logic|
        invariant 0 <= i <= |logic|
        invariant Machine() == old(Machine()).(errors := old(semanticStateMachine.errors) + AbstractTargetErrors(logic[..i], abstractStates))
      {
        assert Init(logic[..i + 1]) == logic[..i];
        CheckAbstractTargets(logic[i].state.name, logic[i].subTransitions, abstractStates);
        i := i + 1;
      }
      assert logic[..i] == logic;
    }

    /** The inner loop of `checkThatAbstractStatesAreNotTargets`. */
    method CheckAbstractTargets(name: string, subs: seq<SubTransition>, abstractStates: set<string>)
      modifies semanticStateMachine
      ensures Machine() == old(Machine()).(errors := old(semanticStateMachine.errors) +
        SubAbstractTargetErrors(name, subs, abstractStates))
    {
      var j := 0;
      while j < |subs|
        invariant 0 <= j <= |subs|
        invariant Machine() == old(Machine()).(errors := old(semanticStateMachine.errors) +
          SubAbstractTargetErrors(name, subs[..j], abstractStates))
      {
        assert Init(subs[..j + 1]) == subs[..j];
        var st := subs[j];
        if st.nextState.Some? && st.nextState.value != "" && st.nextState.value in abstractStates {
          semanticStateMachine.AddError(AbstractTargetError(name, st));
        }
        j := j + 1;
      }
      assert subs[..j] == subs;
    }

    method FindAbstractStates(fsm: FsmSyntax) returns (abstractStates: set<string>)
      ensures abstractStates == AbstractNames(fsm.logic)
    {
      var logic := fsm.logic;
      abstractStates := {};
      var i := 0;
      while i < |logic|
        invariant 0 <= i <= |logic|
        invariant abstractStates == AbstractNames(logic[..i])
      {
        var next := if logic[i].state.isAbstractState then abstractStates + {logic[i].state.name} else abstractStates;
        assert next == AbstractNames(logic[..i + 1]) by {
          var p := logic[..i + 1];
          assert forall j :: 0 <= j < i ==> p[j] == logic[..i][j];
          forall x | x in AbstractNames(p) ensures x in next {
            var j :| 0 <= j < |p| && p[j].state.isAbstractState && p[j].state.name == x;
            if j < i {
              assert x in AbstractNames(logic[..i]);
            }
          }
          forall x | x in next ensures x in AbstractNames(p) {
            if x in AbstractNames(logic[..i]) {
              var j :| 0 <= j < i && logic[..i][j].state.isAbstractState && logic[..i][j].state.name == x;
              assert p[j] == logic[..i][j];
            } else {
              assert p[i] == logic[i];
            }
          }
        }
        abstractStates := next;
        i := i + 1;
      }
      assert logic[..i] == logic;
    }

    method CheckForInconsistentAbstraction(fsm: FsmSyntax)
      modifies semanticStateMachine
      ensures Machine() == old(Machine()).(warnings := old(semanticStateMachine.warnings) +
        InconsistentAbstractionWarnings(fsm.logic, AbstractNames(fsm.logic)))
    {
      var logic := fsm.logic;
      var abstractStates := FindAbstractStates(fsm);
      var i := 0;
      while i < |logic|
        invariant 0 <= i <= |logic|
        invariant Machine() == old(Machine()).(warnings := old(semanticStateMachine.warnings) +
          InconsistentAbstractionWarnings(logic[..i], abstractStates))
      {
        assert Init(logic[..i + 1]) == logic[..i];
        var t := logic[i];
        if !t.state.isAbstractState && t.state.name in abstractStates {
          semanticStateMachine.warnings := semanticStateMachine.warnings + [Err(InconsistentAbstraction, t.state.name)];
        }
        i := i + 1;
      }
      assert logic[..i] == logic;
    }

    // -------------------------------------------------------------------
    // checkForMultiplyDefinedStateActions

    method CheckForMultiplyDefinedStateActions(fsm: FsmSyntax)
      modifies semanticStateMachine
      ensures Machine() == old(Machine()).(errors := old(semanticStateMachine.errors) + MultiplyDefined(fsm.logic).1)
    {
      var logic := fsm.logic;
      var firstActionsForState: map<string, string> := map[];
      var i := 0;
      while i < |logic|
        invariant 0 <= i <= |logic|
        invariant firstActionsForState == MultiplyDefined(logic[..i]).0
        invariant Machine() == old(Machine()).(errors := old(semanticStateMachine.errors) + MultiplyDefined(logic[..i]).1)
      {
        MultiplyDefinedPrefixStep(logic, i);
        firstActionsForState := CheckStateActionsOf(logic[i], firstActionsForState);
        i := i + 1;
      }
      assert logic[..i] == logic;
    }

    /** The body of the loop in `checkForMultiplyDefinedStateActions`, for one entry. */
    method CheckStateActionsOf(t: Transition, firstActionsForState: map<string, string>) returns (first: map<string, string>)
      modifies semanticStateMachine
      ensures (first, semanticStateMachine.errors) == ActionsKeyStep((firstActionsForState, old(semanticStateMachine.errors)), t)
      ensures Machine() == old(Machine()).(errors := semanticStateMachine.errors)
    {
      first := firstActionsForState;
      if SpecifiesStateActions(t) {
        var actionsKey := MakeActionsKey(t);
        if t.state.name in first {
          if first[t.state.name] != actionsKey {
            semanticStateMachine.AddError(Err(StateActionsMultiplyDefined, t.state.name));
          }
        } else {
          first := first[t.state.name := actionsKey];
        }
      }
    }

    /** `makeActionsKey`: the entry actions then the exit actions, comma separated. */
    method MakeActionsKey(t: Transition) returns (key: string)
      ensures key == ActionsKey(t)
    {
      var actions := t.state.entryActions + t.state.exitActions;
      key := CommaList(actions);
    }
  }

  /** `commaList`: each element followed by ",", then the last "," removed; "" for no elements. */
  method CommaList(list: seq<string>) returns (r: string)
    ensures r == Join(list, ",")
  {
    var commaList := "";
    if |list| == 0 {
      return "";
    }
    var i := 0;
    while i < |list|
      invariant 0 <= i <= |list|
      invariant i == 0 ==> commaList == ""
      invariant i > 0 ==> commaList == Join(list[..i], ",") + ","
    {
      if i > 0 {
        JoinSnoc(list[..i], list[i], ",");
        assert list[..i + 1] == list[..i] + [list[i]];
      } else {
        assert list[..1] == [list[0]];
      }
      commaList := commaList + list[i] + ",";
      i := i + 1;
    }
    assert list[..i] == list;
    r := commaList[..|commaList| - 1];
  }

  /** `for (const x of xs) set.add(x)`. */
  method AddEach(acc: seq<string>, xs: seq<string>) returns (r: seq<string>)
    ensures r == AddAll(acc, xs)
  {
    r := acc;
    var k := 0;
    while k < |xs|
      invariant 0 <= k <= |xs|
      invariant r == AddAll(acc, xs[..k])
    {
      assert xs[..k + 1][..k] == xs[..k];
      r := AddToSet(r, xs[k]);
      k := k + 1;
    }
    assert xs[..k] == xs;
  }

  /** One more sub-transition adds its event, if it has one, to the events of those before it. */
  lemma SubEventsStep(start: seq<string>, subs: seq<SubTransition>, j: nat)
    requires j < |subs|
    ensures AddAll(start, SubEvents(subs[..j + 1])) ==
      if subs[j].event.Some? then AddToSet(AddAll(start, SubEvents(subs[..j])), subs[j].event.value)
      else AddAll(start, SubEvents(subs[..j]))
  {
    assert Init(subs[..j + 1]) == subs[..j];
    if subs[j].event.Some? {
      AddOne(start, SubEvents(subs[..j]), subs[j].event.value);
    } else {
      assert SubEvents(subs[..j + 1]) == SubEvents(subs[..j]) + [];
      assert SubEvents(subs[..j]) + [] == SubEvents(subs[..j]);
    }
  }

  /** One more `set.add` is one more element in the list added. */
  lemma AddOne(start: seq<string>, xs: seq<string>, x: string)
    ensures AddAll(start, xs + [x]) == AddToSet(AddAll(start, xs), x)
  {
    assert (xs + [x])[..|xs|] == xs;
  }
}
