# SMC back end and pattern demos in Dafny

This project models the back half of the SMC state-machine compiler from the
`patterns` repository, together with the small design-pattern demos that sit
beside it.

**Semantic analyzer.** It takes a parsed finite-state-machine description
(headers plus state logic) and builds a `SemanticStateMachine`:

- it fills the `fsm`, `actions` and `initial` header slots;
- it runs the validity checks:
  - missing and duplicate headers;
  - undefined and unused states;
  - duplicate transitions;
  - abstract states used as targets;
  - inconsistent abstraction;
  - multiply defined state actions;
- when there is no error, it compiles the states, the super-state links and the transitions;
- finally, the super-class crawler reports conflicting transitions inherited from several super-states.

**Optimizer.** It flattens the hierarchy. Each concrete state gets one `Transition` per state, whose `SubTransition`s carry:

- the exit actions, from the state outwards;
- then the entry actions, from the outermost ancestor in;
- then the transition's own actions.

**Java emitter.** The nested-switch-case tree (`NSCNode`) is walked by the
Java emitter, which appends Java source text to its buffer. The
whitespace utilities normalise texts for comparison.

**States as an arena.** States refer to each other by object reference in the source. Here they live in a sequence (an arena) and refer to each other by index. A super-state hierarchy must be acyclic, which is stated with a ghost rank: every super-state edge lowers the rank. The source's recursion over the hierarchy only terminates on acyclic hierarchies.

**Mutable objects** are Dafny classes whose methods are proved against value-level specification functions:

- the analyzer, its machine, the crawler and the optimizer;
- the emitter and the composite node;
- the demos' editors, stores, subjects and presenters.

**The demos are:**

- the table-driven turnstile;
- memento with undo;
- the flyweight lawnmower store;
- the monostate dictionary;
- the null-object employee database;
- lazy number iterators with `take`;
- extension objects on parts;
- three observer variants;
- model-view-presenter.

## Model

| member | source | states |
|---|---|---|
| SemanticStateMachines.NewState | src/FiniteStateMachines/SMC/semanticAnalyzer/SemanticStateMachine.ts:43-45 | a new state has the given name, no actions, no super-states, no transitions and is not abstract |
| SemanticStateMachines.IsSuperStateOf | src/FiniteStateMachines/SMC/semanticAnalyzer/SemanticStateMachine.ts:90-100 | a state is its own super-state, and so is every super-state of one of its super-states |
| SemanticStateMachines.SuperStateOfHasPath | src/FiniteStateMachines/SMC/semanticAnalyzer/SemanticStateMachine.ts:90-100 | when `isSuperStateOf` holds there is a chain of super-state edges from the state to the candidate |
| SemanticStateMachines.PathGivesSuperStateOf | src/FiniteStateMachines/SMC/semanticAnalyzer/SemanticStateMachine.ts:90-100 | every chain of super-state edges makes its last state a super-state of its first |
| SemanticStateMachines.IsSuperStateOfIsReachability | src/FiniteStateMachines/SMC/semanticAnalyzer/SemanticStateMachine.ts:90-100 | `isSuperStateOf` holds exactly when the candidate is reachable along zero or more super-state edges |
| SemanticStateMachines.SuperStateOfTransitive | src/FiniteStateMachines/SMC/semanticAnalyzer/SemanticStateMachine.ts:90-100 | a super-state of a super-state is a super-state |
| SemanticStateMachines.AdornmentParts | src/FiniteStateMachines/SMC/semanticAnalyzer/SemanticStateMachine.ts:78-84 | the header line's parts: the name (parenthesised when abstract), then `:super`, `<entry` and `>exit` parts in order |
| SemanticStateMachines.AdornmentsSplit | src/FiniteStateMachines/SMC/semanticAnalyzer/SemanticStateMachine.ts:78-84 | the space-joined header line splits back into those parts when no part holds a space |
| SemanticStateMachines.TransitionStringShape | src/FiniteStateMachines/SMC/semanticAnalyzer/SemanticStateMachine.ts:66-76 | a transition line is four spaces, the event, the next state name or "null", and the braced actions, which split back into the actions |
| SemanticStateMachines.TransitionString | src/FiniteStateMachines/SMC/semanticAnalyzer/SemanticStateMachine.ts:66-68 | a transition line is indented by four spaces and ends with the closing brace of its actions |
| SemanticStateMachines.StateString | src/FiniteStateMachines/SMC/semanticAnalyzer/SemanticStateMachine.ts:58-60 | a state's text is a new line, the adorned name, " {", its transition lines, and the indented closing brace |
| SemanticStateMachines.StateNameWithAdornments | src/FiniteStateMachines/SMC/semanticAnalyzer/SemanticStateMachine.ts:78-84 | the name, in parentheses when abstract, opens the line; it is the whole line exactly when there are no super-states, entry or exit actions, and is otherwise followed by a space |
| SemanticStateMachines.TransitionStrings | src/FiniteStateMachines/SMC/semanticAnalyzer/SemanticStateMachine.ts:62-64 | empty exactly when there are no transitions; otherwise it closes with a line break after a brace |
| SemanticStateMachines.TransitionStringsStart | src/FiniteStateMachines/SMC/semanticAnalyzer/SemanticStateMachine.ts:62-64 | the lines come in transition order: the text opens with the first transition's line |
| SemanticStateMachines.SemanticStateMachine.constructor | src/FiniteStateMachines/SMC/semanticAnalyzer/SemanticStateMachine.ts:4-12 | a new machine has no errors, warnings, states, events or actions, and null header fields |
| SemanticStateMachines.SemanticStateMachine.AddError | src/FiniteStateMachines/SMC/semanticAnalyzer/SemanticStateMachine.ts:23-25 | the error goes to the end of the list and nothing else changes |
| SemanticStateMachines.SemanticStateMachine.StatesToString | src/FiniteStateMachines/SMC/semanticAnalyzer/SemanticStateMachine.ts:27-32 | the states text is braced: it starts with "{" and ends with "}\n" |
| SemanticStateMachines.SemanticStateMachine.ToStringLines | src/FiniteStateMachines/SMC/semanticAnalyzer/SemanticStateMachine.ts:14-21 | the machine text is the Actions, FSM and Initial lines (null fields as "null") followed by the states text |
| SemanticStateMachines.SemanticStateMachine.ToString | src/FiniteStateMachines/SMC/semanticAnalyzer/SemanticStateMachine.ts:14-21 | the machine text opens with the "Actions: " line and ends with the states text |
| AnalyzerHeaders.KindOf | src/FiniteStateMachines/SMC/semanticAnalyzer/SemanticAnalyzer.ts:28-44 | a header is routed to the fsm, actions or initial slot by case-insensitive name, tried in that order, or to none |
| AnalyzerHeaders.IsNamed | src/FiniteStateMachines/SMC/semanticAnalyzer/SemanticAnalyzer.ts:42-44 | a header matches a name only when it has a name of the same length |
| AnalyzerHeaders.IsNamedMeaning | src/FiniteStateMachines/SMC/semanticAnalyzer/SemanticAnalyzer.ts:42-44 | iff: the header has a name that, lower-cased character by character, is the target |
| AnalyzerHeaders.FirstOfKindMeaning | src/FiniteStateMachines/SMC/semanticAnalyzer/SemanticAnalyzer.ts:28-53 | the first header of a kind is found exactly when one exists, and no earlier header has that kind |
| AnalyzerHeaders.SetHeadersSlot | src/FiniteStateMachines/SMC/semanticAnalyzer/SemanticAnalyzer.ts:28-53 | after the header pass a slot keeps its old value or takes the first header of its kind |
| AnalyzerHeaders.SlotTaken | src/FiniteStateMachines/SMC/semanticAnalyzer/SemanticAnalyzer.ts:28-53 | a slot is filled after the pass exactly when it was filled before or a header of its kind came |
| AnalyzerHeaders.SetHeadersErrors | src/FiniteStateMachines/SMC/semanticAnalyzer/SemanticAnalyzer.ts:28-53 | the pass records one error per header that is unknown or finds its slot taken, in header order |
| AnalyzerHeaders.MissingHeadersMeaning | src/FiniteStateMachines/SMC/semanticAnalyzer/SemanticAnalyzer.ts:55-66 | NO_FSM and NO_INITIAL are recorded exactly when no such header reached a fresh analyzer |
| AnalyzerChecks.NameList | src/FiniteStateMachines/SMC/semanticAnalyzer/SemanticAnalyzer.ts:116-121 | the declared names are the logic entries' state names, in order |
| AnalyzerChecks.SubEventsMembers | src/FiniteStateMachines/SMC/semanticAnalyzer/SemanticAnalyzer.ts:95-103 | an entry contributes exactly the non-null events of its sub-transitions |
| AnalyzerChecks.EventListMembers | src/FiniteStateMachines/SMC/semanticAnalyzer/SemanticAnalyzer.ts:95-103 | the event set holds exactly the non-null events of all sub-transitions |
| AnalyzerChecks.SubActionsMembers | src/FiniteStateMachines/SMC/semanticAnalyzer/SemanticAnalyzer.ts:85-93 | an entry contributes exactly the actions of its sub-transitions |
| AnalyzerChecks.ActionListMembers | src/FiniteStateMachines/SMC/semanticAnalyzer/SemanticAnalyzer.ts:85-114 | the action set holds exactly the entry, exit and transition actions |
| AnalyzerChecks.SuperErrorsMeaning | src/FiniteStateMachines/SMC/semanticAnalyzer/SemanticAnalyzer.ts:123-144 | UNDEFINED_SUPER_STATE errors are exactly those naming an undeclared super-state |
| AnalyzerChecks.NextStateErrorsMeaning | src/FiniteStateMachines/SMC/semanticAnalyzer/SemanticAnalyzer.ts:123-144 | UNDEFINED_STATE errors from transitions are exactly those naming an undeclared non-null next state |
| AnalyzerChecks.UndefinedErrorsMeaning | src/FiniteStateMachines/SMC/semanticAnalyzer/SemanticAnalyzer.ts:123-144 | iff: the undefined-state check reports exactly the undeclared super-states, the undeclared non-null next states and an undeclared initial value ("initial: v") |
| AnalyzerChecks.NextNamesMembers | src/FiniteStateMachines/SMC/semanticAnalyzer/SemanticAnalyzer.ts:168-180 | an entry's next states are its named next states, plus the state itself for a null next state |
| AnalyzerChecks.SuperNameListMembers | src/FiniteStateMachines/SMC/semanticAnalyzer/SemanticAnalyzer.ts:182-190 | the super-state list holds exactly the names some entry lists as super-states |
| AnalyzerChecks.NextNameListMembers | src/FiniteStateMachines/SMC/semanticAnalyzer/SemanticAnalyzer.ts:168-180 | the next-state list holds exactly the named next states and the owners of null next states |
| AnalyzerChecks.UnusedErrorsMembers | src/FiniteStateMachines/SMC/semanticAnalyzer/SemanticAnalyzer.ts:150-156 | UNUSED_STATE is reported for a name exactly when it is declared and not used |
| AnalyzerChecks.UnusedStateMeaning | src/FiniteStateMachines/SMC/semanticAnalyzer/SemanticAnalyzer.ts:146-190 | a declared state is unused exactly when it is not the initial value, not a super-state and not a next state |
| AnalyzerChecks.UsedStatesMembers | src/FiniteStateMachines/SMC/semanticAnalyzer/SemanticAnalyzer.ts:158-190 | a name is used exactly when it is the non-empty initial value, a super-state of some state, or the target of some sub-transition (a null target naming its owner) |
| AnalyzerChecks.DeclaredNamesMembers | src/FiniteStateMachines/SMC/semanticAnalyzer/SemanticAnalyzer.ts:150-151 | the keys of the state map are exactly the names of the declared states |
| AnalyzerChecks.DuplicateStep | src/FiniteStateMachines/SMC/semanticAnalyzer/SemanticAnalyzer.ts:192-204 | one more transition key is an error exactly when it was met before |
| AnalyzerChecks.TransitionKey | src/FiniteStateMachines/SMC/semanticAnalyzer/SemanticAnalyzer.ts:196 | the key is the state's name, "(", the event as printed ("null" when absent), then ")" |
| AnalyzerChecks.TransitionKeyInjective | src/FiniteStateMachines/SMC/semanticAnalyzer/SemanticAnalyzer.ts:196 | for state names without "(", two keys agree exactly when the states and the printed events agree |
| AnalyzerChecks.DuplicateErrorsMeaning | src/FiniteStateMachines/SMC/semanticAnalyzer/SemanticAnalyzer.ts:192-204 | a transition key is reported exactly when it occurs twice or more |
| AnalyzerChecks.DuplicateErrorsCount | src/FiniteStateMachines/SMC/semanticAnalyzer/SemanticAnalyzer.ts:192-204 | every occurrence of a key after its first earns one DUPLICATE_TRANSITION error |
| AnalyzerChecks.SubAbstractTargetMeaning | src/FiniteStateMachines/SMC/semanticAnalyzer/SemanticAnalyzer.ts:206-219 | an entry's errors are exactly its transitions into an abstract state, each named by its key and target |
| AnalyzerChecks.AbstractTargetMeaning | src/FiniteStateMachines/SMC/semanticAnalyzer/SemanticAnalyzer.ts:206-229 | an error is recorded for every transition whose non-empty next state is declared abstract somewhere, and for nothing else |
| AnalyzerChecks.AbstractTargetPrefix | src/FiniteStateMachines/SMC/semanticAnalyzer/SemanticAnalyzer.ts:206-229 | the same characterisation holds for every prefix of the logic |
| AnalyzerChecks.InconsistentAbstractionMeaning | src/FiniteStateMachines/SMC/semanticAnalyzer/SemanticAnalyzer.ts:231-239 | a warning names each non-abstract declaration of a state declared abstract elsewhere |
| AnalyzerChecks.WarningsAreInconsistentAbstraction | src/FiniteStateMachines/SMC/semanticAnalyzer/SemanticAnalyzer.ts:231-239 | every warning the analyzer records is INCONSISTENT_ABSTRACTION |
| AnalyzerChecks.FirstWithActions | src/FiniteStateMachines/SMC/semanticAnalyzer/SemanticAnalyzer.ts:241-260 | the first declaration of a state that has state actions, or none |
| AnalyzerChecks.FirstWithActionsPrefix | src/FiniteStateMachines/SMC/semanticAnalyzer/SemanticAnalyzer.ts:241-260 | a first declaration found in a prefix is the first in the whole logic |
| AnalyzerChecks.MultiplyDefinedMap | src/FiniteStateMachines/SMC/semanticAnalyzer/SemanticAnalyzer.ts:241-267 | the actions map keeps, per state, the key of its first declaration with state actions |
| AnalyzerChecks.MultiplyDefinedStep | src/FiniteStateMachines/SMC/semanticAnalyzer/SemanticAnalyzer.ts:241-267 | a declaration is reported exactly when it has state actions, an earlier one had some, and their keys differ |
| AnalyzerChecks.SpecifiesStateActions | src/FiniteStateMachines/SMC/semanticAnalyzer/SemanticAnalyzer.ts:258-260 | true exactly when the state lists some entry or exit action; otherwise its actions key is empty |
| AnalyzerCompile.Names | src/FiniteStateMachines/SMC/semanticAnalyzer/SemanticAnalyzer.ts:116-121 | the names of the arena's states, in order |
| AnalyzerCompile.Lookup | src/FiniteStateMachines/SMC/semanticAnalyzer/SemanticAnalyzer.ts:305-337 | `states.get(name)` finds the index of the state with that name, or nothing |
| AnalyzerCompile.LookupUnique | src/FiniteStateMachines/SMC/semanticAnalyzer/SemanticAnalyzer.ts:305-337 | with distinct names, looking a state's name up finds that state |
| AnalyzerCompile.FreshStates | src/FiniteStateMachines/SMC/semanticAnalyzer/SemanticAnalyzer.ts:116-121 | one new state per name, in order |
| AnalyzerCompile.AddStateNameFresh | src/FiniteStateMachines/SMC/semanticAnalyzer/SemanticAnalyzer.ts:116-121 | adding a name again keeps the arena of fresh states, as `set.add` does |
| AnalyzerCompile.AddStateNamesFresh | src/FiniteStateMachines/SMC/semanticAnalyzer/SemanticAnalyzer.ts:116-121 | from no states, the arena holds one fresh state per distinct declared name, in first-declaration order |
| AnalyzerCompile.ResolveSupers | src/FiniteStateMachines/SMC/semanticAnalyzer/SemanticAnalyzer.ts:305-325 | each super-state name that resolves is added once; the rest are skipped |
| AnalyzerCompile.CompileTransition | src/FiniteStateMachines/SMC/semanticAnalyzer/SemanticAnalyzer.ts:333-337 | a null next state means the owning state; a named one resolves by name or stays null; event and actions are copied |
| AnalyzerCompile.CompileTransitions | src/FiniteStateMachines/SMC/semanticAnalyzer/SemanticAnalyzer.ts:327-331 | one compiled transition per sub-transition, in order |
| AnalyzerCompile.CompileInitial | src/FiniteStateMachines/SMC/semanticAnalyzer/SemanticAnalyzer.ts:297-303 | only a non-empty initial value is looked up; the state found carries that name |
| AnalyzerCompile.AbstractForMeaning | src/FiniteStateMachines/SMC/semanticAnalyzer/SemanticAnalyzer.ts:305-325 | a state is abstract when any of its declarations says so |
| AnalyzerCompile.ResolveSupersAppend | src/FiniteStateMachines/SMC/semanticAnalyzer/SemanticAnalyzer.ts:305-325 | resolving two runs of names is resolving each run in turn |
| AnalyzerCompile.CompileEntryAt | src/FiniteStateMachines/SMC/semanticAnalyzer/SemanticAnalyzer.ts:305-337 | compiling one entry changes only the state it declares, and keeps the names |
| AnalyzerCompile.CompileLogicNames | src/FiniteStateMachines/SMC/semanticAnalyzer/SemanticAnalyzer.ts:280-295 | compiling the logic keeps the arena's length and names |
| AnalyzerCompile.CompileLogicStep | src/FiniteStateMachines/SMC/semanticAnalyzer/SemanticAnalyzer.ts:280-295 | the last entry updates a state exactly when it declares that state |
| AnalyzerCompile.CompileEntryActions | src/FiniteStateMachines/SMC/semanticAnalyzer/SemanticAnalyzer.ts:305-325 | a compiled state carries the entry actions of all its declarations, in order |
| AnalyzerCompile.CompileExitActions | src/FiniteStateMachines/SMC/semanticAnalyzer/SemanticAnalyzer.ts:305-325 | a compiled state carries the exit actions of all its declarations, in order |
| AnalyzerCompile.CompileAbstract | src/FiniteStateMachines/SMC/semanticAnalyzer/SemanticAnalyzer.ts:305-325 | a compiled state is abstract when it was, or when any of its declarations says so |
| AnalyzerCompile.CompileAbstractFor | src/FiniteStateMachines/SMC/semanticAnalyzer/SemanticAnalyzer.ts:305-325 | the same for any starting arena with distinct names |
| AnalyzerCompile.CompileSuperStates | src/FiniteStateMachines/SMC/semanticAnalyzer/SemanticAnalyzer.ts:305-325 | a compiled state's super-states are those its declarations name, resolved and without repeats |
| AnalyzerCompile.CompileTransitionsOf | src/FiniteStateMachines/SMC/semanticAnalyzer/SemanticAnalyzer.ts:305-337 | a compiled state carries the compiled transitions of all its declarations, in order |
| AnalyzerCompile.GoodStatesRanked | src/FiniteStateMachines/SMC/semanticAnalyzer/SemanticAnalyzer.ts:280-295 | states whose references resolve and go down in rank form a well-formed, acyclic arena |
| AnalyzerCompile.ResolveSupersRanked | src/FiniteStateMachines/SMC/semanticAnalyzer/SemanticAnalyzer.ts:305-325 | resolving super-states of lower rank adds only states of lower rank |
| AnalyzerCompile.UpdatedGood | src/FiniteStateMachines/SMC/semanticAnalyzer/SemanticAnalyzer.ts:305-337 | compiling an entry of an acyclic description into a good state keeps it good |
| AnalyzerCompile.CompileLogicGood | src/FiniteStateMachines/SMC/semanticAnalyzer/SemanticAnalyzer.ts:280-337 | compiling an acyclic description gives references in range whose edges lower the rank |
| AnalyzerCompile.CompileLogicRanked | src/FiniteStateMachines/SMC/semanticAnalyzer/SemanticAnalyzer.ts:280-337 | the compiled arena of an acyclic description is well formed and acyclic |
| SuperClassCrawling.TupleOf | src/FiniteStateMachines/SMC/semanticAnalyzer/SemanticAnalyzer.ts:413-428 | a transition tuple records the state, event, next state and actions, with null event or next state as "" |
| SuperClassCrawling.Visits | src/FiniteStateMachines/SMC/semanticAnalyzer/SemanticAnalyzer.ts:358-363 | the visiting order: each super-state's own walk in turn, then the state itself last |
| SuperClassCrawling.SuperVisits | src/FiniteStateMachines/SMC/semanticAnalyzer/SemanticAnalyzer.ts:358-363 | the walks of the first n super-states, concatenated, each within range |
| SuperClassCrawling.Step | src/FiniteStateMachines/SMC/semanticAnalyzer/SemanticAnalyzer.ts:371-410 | the errors are kept, and at most one conflict, for the transition's event and the concrete state, is appended |
| SuperClassCrawling.CrawlStates | src/FiniteStateMachines/SMC/semanticAnalyzer/SemanticAnalyzer.ts:348-356 | crawling more states keeps every earlier error in place |
| SuperClassCrawling.SuperClassCrawler.constructor | src/FiniteStateMachines/SMC/semanticAnalyzer/SemanticAnalyzer.ts:340-346 | a crawler starts over its machine with no concrete state and no tuples |
| SuperClassCrawling.SuperClassCrawler.CheckSuperClassTransitions | src/FiniteStateMachines/SMC/semanticAnalyzer/SemanticAnalyzer.ts:348-356 | only the errors change, and they become the crawl over every concrete state from a fresh tuple map |
| SuperClassCrawling.SuperClassCrawler.CheckConcreteState | src/FiniteStateMachines/SMC/semanticAnalyzer/SemanticAnalyzer.ts:350-354 | an abstract state is skipped; a concrete one is crawled from an empty tuple map, and only the errors change |
| SuperClassCrawling.SuperClassCrawler.CheckTransitionsForState | src/FiniteStateMachines/SMC/semanticAnalyzer/SemanticAnalyzer.ts:358-363 | the state's transitions are checked along its visiting order |
| SuperClassCrawling.SuperClassCrawler.CheckSuperStates | src/FiniteStateMachines/SMC/semanticAnalyzer/SemanticAnalyzer.ts:359-361 | the super-states are walked in order, each with its own hierarchy; only the errors and the tuples change |
| SuperClassCrawling.SuperClassCrawler.CheckStateForPreviouslyDefinedTransition | src/FiniteStateMachines/SMC/semanticAnalyzer/SemanticAnalyzer.ts:365-369 | each transition of the state is checked in order |
| SuperClassCrawling.SuperClassCrawler.CheckTransitionForPreviousDefinition | src/FiniteStateMachines/SMC/semanticAnalyzer/SemanticAnalyzer.ts:371-378 | a new event is recorded; a known one is judged against its earlier definition |
| SuperClassCrawling.SuperClassCrawler.DetermineIfThePreviousDefinitionIsAnError | src/FiniteStateMachines/SMC/semanticAnalyzer/SemanticAnalyzer.ts:380-386 | same outcomes change nothing; otherwise an override replaces the tuple, and a non-override records a conflict |
| SuperClassCrawling.SuperClassCrawler.CheckForOverriddenTransition | src/FiniteStateMachines/SMC/semanticAnalyzer/SemanticAnalyzer.ts:397-410 | a definition by a sub-state of the earlier definer replaces it; any other is CONFLICTING_SUPERSTATES for the concrete state |
| SuperClassCrawling.StepVisitsAppend | src/FiniteStateMachines/SMC/semanticAnalyzer/SemanticAnalyzer.ts:358-363 | checking two runs of states is checking each run in turn |
| SuperClassCrawling.VisitsAreAncestors | src/FiniteStateMachines/SMC/semanticAnalyzer/SemanticAnalyzer.ts:358-363 | every state the walk visits is the state itself or one of its transitive super-states |
| SuperClassCrawling.SuperVisitsAreAncestors | src/FiniteStateMachines/SMC/semanticAnalyzer/SemanticAnalyzer.ts:358-363 | every state the super-state walks visit is a transitive super-state |
| SuperClassCrawling.AncestorsAreVisited | src/FiniteStateMachines/SMC/semanticAnalyzer/SemanticAnalyzer.ts:358-363 | every transitive super-state, and the state itself, is visited |
| SuperClassCrawling.SuperVisitsContain | src/FiniteStateMachines/SMC/semanticAnalyzer/SemanticAnalyzer.ts:358-363 | the combined walks contain each super-state's own walk |
| SuperClassCrawling.StepConflict | src/FiniteStateMachines/SMC/semanticAnalyzer/SemanticAnalyzer.ts:371-410 | one step reports a conflict exactly when the event is known, the outcomes differ and the earlier definition may not be overridden |
| SuperClassCrawling.SameOutcomes | src/FiniteStateMachines/SMC/semanticAnalyzer/SemanticAnalyzer.ts:388-395 | two tuples have the same outcome exactly when they differ at most in the state that defined them and the event |
| SuperClassCrawling.MayOverride | src/FiniteStateMachines/SMC/semanticAnalyzer/SemanticAnalyzer.ts:402-403 | an override is only allowed when the earlier definition's state is a declared state |
| SuperClassCrawling.MayOverrideMeaning | src/FiniteStateMachines/SMC/semanticAnalyzer/SemanticAnalyzer.ts:402-403 | iff: the earlier definition's state is found and lies on a super-state path from the current state, the current state included |
| SuperClassCrawling.SuperClassCrawler.ConcreteName | src/FiniteStateMachines/SMC/semanticAnalyzer/SemanticAnalyzer.ts:405 | the concrete state's name, or "undefined" while no concrete state is chosen |
| SuperClassCrawling.CrawlAddsOnlyConflicts | src/FiniteStateMachines/SMC/semanticAnalyzer/SemanticAnalyzer.ts:348-410 | the crawl keeps the earlier errors and appends only CONFLICTING_SUPERSTATES errors |
| SuperClassCrawling.StepVisitsConflicts | src/FiniteStateMachines/SMC/semanticAnalyzer/SemanticAnalyzer.ts:358-410 | a walk keeps the earlier errors and appends only conflicts of the concrete state |
| SuperClassCrawling.StepAllConflicts | src/FiniteStateMachines/SMC/semanticAnalyzer/SemanticAnalyzer.ts:365-410 | checking one state's transitions appends only conflicts of the concrete state |
| SuperClassCrawling.StepAllFromAncestors | src/FiniteStateMachines/SMC/semanticAnalyzer/SemanticAnalyzer.ts:365-410 | when every recorded tuple comes from a super-state, a state's transitions add no error |
| SuperClassCrawling.ChainCrawl | src/FiniteStateMachines/SMC/semanticAnalyzer/SemanticAnalyzer.ts:348-410 | with single inheritance, a state's walk adds no error |
| SuperClassCrawling.SingleInheritanceNoConflicts | src/FiniteStateMachines/SMC/semanticAnalyzer/SemanticAnalyzer.ts:340-410 | with single inheritance the crawl reports no conflict, since a sub-state may always override its super-states |
| SuperClassCrawling.CrawlStateNoConflicts | src/FiniteStateMachines/SMC/semanticAnalyzer/SemanticAnalyzer.ts:350-354 | with single inheritance, crawling one state leaves the errors as they were |
| SemanticAnalysis.AnalysisOutcome | src/FiniteStateMachines/SMC/semanticAnalyzer/SemanticAnalyzer.ts:15-21 | with an error before compilation: exactly those errors and the bare declared states; otherwise compiled states with every reference in range, an initial state named by the initial header, and only crawler conflicts as errors |
| SemanticAnalysis.ListsFromEmpty | src/FiniteStateMachines/SMC/semanticAnalyzer/SemanticAnalyzer.ts:78-121 | the state, event and action lists built from empty ones are the distinct names, in order |
| SemanticAnalysis.SemanticAnalyzer.constructor | src/FiniteStateMachines/SMC/semanticAnalyzer/SemanticAnalyzer.ts:10-13 | a new analyzer has empty header slots |
| SemanticAnalysis.SemanticAnalyzer.Analyze | src/FiniteStateMachines/SMC/semanticAnalyzer/SemanticAnalyzer.ts:15-21 | returns a new machine equal to the analysis result of the description and the previous slots; the slots keep the headers |
| SemanticAnalysis.SemanticAnalyzer.CheckHeadersAndValidity | src/FiniteStateMachines/SMC/semanticAnalyzer/SemanticAnalyzer.ts:16-18 | on a fresh machine: the slots take the header pass, and the machine holds exactly the errors and warnings found before compilation, one bare state per declared name, and the event and action lists |
| SemanticAnalysis.SemanticAnalyzer.AnalyzeHeaders | src/FiniteStateMachines/SMC/semanticAnalyzer/SemanticAnalyzer.ts:23-26 | the slots follow the header pass; its errors then the missing-header errors are appended |
| SemanticAnalysis.SemanticAnalyzer.SetHeaders | src/FiniteStateMachines/SMC/semanticAnalyzer/SemanticAnalyzer.ts:28-40 | the slots and the appended errors are those of the header pass |
| SemanticAnalysis.SemanticAnalyzer.SetOneHeader | src/FiniteStateMachines/SMC/semanticAnalyzer/SemanticAnalyzer.ts:30-38 | one header: a named kind fills an empty slot or records EXTRA_HEADER_IGNORED, any other name records INVALID_HEADER; nothing else changes |
| SemanticAnalysis.SemanticAnalyzer.SetHeader | src/FiniteStateMachines/SMC/semanticAnalyzer/SemanticAnalyzer.ts:46-53 | an empty slot takes the header; a filled one keeps its value and the header is reported |
| SemanticAnalysis.SemanticAnalyzer.CheckMissingHeaders | src/FiniteStateMachines/SMC/semanticAnalyzer/SemanticAnalyzer.ts:55-66 | NO_FSM and NO_INITIAL are appended for empty slots, and nothing else changes |
| SemanticAnalysis.SemanticAnalyzer.CheckSemanticValidity | src/FiniteStateMachines/SMC/semanticAnalyzer/SemanticAnalyzer.ts:68-76 | the lists are built, then the errors and warnings of every check are appended in the source's order |
| SemanticAnalysis.SemanticAnalyzer.CreateStateEventAndActionLists | src/FiniteStateMachines/SMC/semanticAnalyzer/SemanticAnalyzer.ts:78-83 | states, events and actions gain the declared names, events and actions |
| SemanticAnalysis.SemanticAnalyzer.AddTransitionActionsToActionList | src/FiniteStateMachines/SMC/semanticAnalyzer/SemanticAnalyzer.ts:85-93 | the action set gains every transition action, in order |
| SemanticAnalysis.SemanticAnalyzer.AddSubTransitionActions | src/FiniteStateMachines/SMC/semanticAnalyzer/SemanticAnalyzer.ts:87-92 | one entry's sub-transition actions are added, in order |
| SemanticAnalysis.SemanticAnalyzer.AddEventsToEventList | src/FiniteStateMachines/SMC/semanticAnalyzer/SemanticAnalyzer.ts:95-103 | the event set gains every non-null event, in order |
| SemanticAnalysis.SemanticAnalyzer.AddSubEvents | src/FiniteStateMachines/SMC/semanticAnalyzer/SemanticAnalyzer.ts:97-101 | one entry's non-null events are added, in order |
| SemanticAnalysis.SemanticAnalyzer.AddEntryAndExitActionsToActionList | src/FiniteStateMachines/SMC/semanticAnalyzer/SemanticAnalyzer.ts:105-114 | the action set gains every entry then exit action of each entry |
| SemanticAnalysis.SemanticAnalyzer.AddActions | src/FiniteStateMachines/SMC/semanticAnalyzer/SemanticAnalyzer.ts:105-114 | adding a list of actions to the set, in order |
| SemanticAnalysis.SemanticAnalyzer.AddStateNamesToStateList | src/FiniteStateMachines/SMC/semanticAnalyzer/SemanticAnalyzer.ts:116-121 | each declared name not yet present gets a new state |
| SemanticAnalysis.SemanticAnalyzer.SetStateName | src/FiniteStateMachines/SMC/semanticAnalyzer/SemanticAnalyzer.ts:118-119 | `states.set`: an existing state of that name is replaced by a new one, otherwise one is appended |
| SemanticAnalysis.SemanticAnalyzer.CheckUndefinedStates | src/FiniteStateMachines/SMC/semanticAnalyzer/SemanticAnalyzer.ts:123-138 | the undefined-state errors are appended |
| SemanticAnalysis.SemanticAnalyzer.CheckUndefinedLogic | src/FiniteStateMachines/SMC/semanticAnalyzer/SemanticAnalyzer.ts:124-131 | the errors of every logic entry are appended, entry by entry |
| SemanticAnalysis.SemanticAnalyzer.CheckUndefinedEntry | src/FiniteStateMachines/SMC/semanticAnalyzer/SemanticAnalyzer.ts:125-130 | one entry's undeclared super-states, then its undeclared next states |
| SemanticAnalysis.SemanticAnalyzer.CheckUndefinedSuperStates | src/FiniteStateMachines/SMC/semanticAnalyzer/SemanticAnalyzer.ts:125-127 | one error per undeclared super-state name, in order |
| SemanticAnalysis.SemanticAnalyzer.CheckUndefinedNextStates | src/FiniteStateMachines/SMC/semanticAnalyzer/SemanticAnalyzer.ts:128-130 | one error per undeclared non-null next state, in order |
| SemanticAnalysis.SemanticAnalyzer.CheckUndefinedState | src/FiniteStateMachines/SMC/semanticAnalyzer/SemanticAnalyzer.ts:140-144 | a non-null reference to an undeclared state adds an error with that name; otherwise nothing changes |
| SemanticAnalysis.SemanticAnalyzer.CheckForUnusedStates | src/FiniteStateMachines/SMC/semanticAnalyzer/SemanticAnalyzer.ts:146-148 | UNUSED_STATE is appended for each declared state that is not used |
| SemanticAnalysis.SemanticAnalyzer.FindStatesDefinedButNotUsed | src/FiniteStateMachines/SMC/semanticAnalyzer/SemanticAnalyzer.ts:150-156 | the same, for a given set of used states |
| SemanticAnalysis.SemanticAnalyzer.FindUsedStates | src/FiniteStateMachines/SMC/semanticAnalyzer/SemanticAnalyzer.ts:158-166 | the used states: a non-empty initial value, every super-state and every next state |
| SemanticAnalysis.SemanticAnalyzer.AddAllUsed | src/FiniteStateMachines/SMC/semanticAnalyzer/SemanticAnalyzer.ts:163-164 | the used set grows by exactly the listed names |
| SemanticAnalysis.SemanticAnalyzer.GetNextStates | src/FiniteStateMachines/SMC/semanticAnalyzer/SemanticAnalyzer.ts:168-180 | the next states, with a null next state standing for its own state |
| SemanticAnalysis.SemanticAnalyzer.AddNextStates | src/FiniteStateMachines/SMC/semanticAnalyzer/SemanticAnalyzer.ts:170-178 | one entry's next states are added |
| SemanticAnalysis.SemanticAnalyzer.GetSuperStates | src/FiniteStateMachines/SMC/semanticAnalyzer/SemanticAnalyzer.ts:182-190 | the distinct super-state names, in order |
| SemanticAnalysis.SemanticAnalyzer.CheckForDuplicateTransitions | src/FiniteStateMachines/SMC/semanticAnalyzer/SemanticAnalyzer.ts:192-204 | DUPLICATE_TRANSITION is appended for every repeated key |
| SemanticAnalysis.SemanticAnalyzer.CheckKeys | src/FiniteStateMachines/SMC/semanticAnalyzer/SemanticAnalyzer.ts:195-202 | keys already seen are reported and the seen set grows |
| SemanticAnalysis.SemanticAnalyzer.CheckKey | src/FiniteStateMachines/SMC/semanticAnalyzer/SemanticAnalyzer.ts:196-201 | a key met before adds one DUPLICATE_TRANSITION error, a new key joins the set |
| SemanticAnalysis.SemanticAnalyzer.CheckThatAbstractStatesAreNotTargets | src/FiniteStateMachines/SMC/semanticAnalyzer/SemanticAnalyzer.ts:206-219 | ABSTRACT_STATE_USED_AS_NEXT_STATE is appended for every transition into an abstract state |
| SemanticAnalysis.SemanticAnalyzer.CheckAbstractTargets | src/FiniteStateMachines/SMC/semanticAnalyzer/SemanticAnalyzer.ts:208-217 | one entry's transitions into abstract states are reported |
| SemanticAnalysis.SemanticAnalyzer.FindAbstractStates | src/FiniteStateMachines/SMC/semanticAnalyzer/SemanticAnalyzer.ts:221-229 | the names declared abstract somewhere |
| SemanticAnalysis.SemanticAnalyzer.CheckForInconsistentAbstraction | src/FiniteStateMachines/SMC/semanticAnalyzer/SemanticAnalyzer.ts:231-239 | INCONSISTENT_ABSTRACTION warnings are appended |
| SemanticAnalysis.SemanticAnalyzer.CheckForMultiplyDefinedStateActions | src/FiniteStateMachines/SMC/semanticAnalyzer/SemanticAnalyzer.ts:241-256 | STATE_ACTIONS_MULTIPLY_DEFINED is appended for each redeclaration with different state actions |
| SemanticAnalysis.SemanticAnalyzer.CheckStateActionsOf | src/FiniteStateMachines/SMC/semanticAnalyzer/SemanticAnalyzer.ts:244-254 | one entry: the first actions key of a state is remembered, and a later different key appends STATE_ACTIONS_MULTIPLY_DEFINED |
| SemanticAnalysis.SemanticAnalyzer.MakeActionsKey | src/FiniteStateMachines/SMC/semanticAnalyzer/SemanticAnalyzer.ts:262-267 | the key lists the entry actions then the exit actions, comma separated |
| SemanticAnalysis.CommaList | src/FiniteStateMachines/SMC/semanticAnalyzer/SemanticAnalyzer.ts:269-278 | the elements joined by ",", and "" for no elements |
| SemanticAnalysis.SemanticAnalyzer.ProduceSemanticStateMachine | src/FiniteStateMachines/SMC/semanticAnalyzer/SemanticAnalyzer.ts:280-295 | with errors nothing changes; otherwise the states are compiled, the headers set and the crawler's conflicts appended |
| SemanticAnalysis.SemanticAnalyzer.CompileLogicEntries | src/FiniteStateMachines/SMC/semanticAnalyzer/SemanticAnalyzer.ts:283-290 | each logic entry is compiled onto its state, in order |
| SemanticAnalysis.SemanticAnalyzer.CompileHeaders | src/FiniteStateMachines/SMC/semanticAnalyzer/SemanticAnalyzer.ts:297-303 | the initial state, action class and name come from the slots |
| SemanticAnalysis.SemanticAnalyzer.CompileState | src/FiniteStateMachines/SMC/semanticAnalyzer/SemanticAnalyzer.ts:305-325 | the state named by the entry is updated with its actions, abstraction and super-states; nothing when there is none |
| SemanticAnalysis.SemanticAnalyzer.AddSuperStates | src/FiniteStateMachines/SMC/semanticAnalyzer/SemanticAnalyzer.ts:315-323 | each super-state name that names a state adds that state once, in order; unknown names are skipped; nothing else changes |
| SemanticAnalysis.SemanticAnalyzer.CompileTransitions | src/FiniteStateMachines/SMC/semanticAnalyzer/SemanticAnalyzer.ts:327-331 | each sub-transition is compiled onto the state, in order |
| SemanticAnalysis.SemanticAnalyzer.CompileTransition | src/FiniteStateMachines/SMC/semanticAnalyzer/SemanticAnalyzer.ts:333-337 | a null next state is the state itself, otherwise the named state or null |
| SmcUtilities.AddPrefix | src/FiniteStateMachines/SMC/utilities.ts:7-9 | each element gets the prefix and keeps its own text after it |
| SmcUtilities.DropLeading | src/FiniteStateMachines/SMC/utilities.ts:15 | the longest suffix not starting with a character of the class; everything dropped is in the class |
| SmcUtilities.CompressWhiteSpace | src/FiniteStateMachines/SMC/utilities.ts:11-16 | no tab, no two adjacent spaces, no space beside a newline, and the same non-whitespace characters in order |
| SmcUtilities.Strip | src/FiniteStateMachines/SMC/utilities.ts:11-16 | only non-whitespace characters of the input remain |
| SmcUtilities.StripCollapse | src/FiniteStateMachines/SMC/utilities.ts:13-14 | replacing whitespace runs by whitespace keeps every other character |
| SmcUtilities.StripTrim | src/FiniteStateMachines/SMC/utilities.ts:15 | removing spaces around newlines keeps every other character |
| SmcUtilities.CollapseNoPair | src/FiniteStateMachines/SMC/utilities.ts:13-14 | a run replaced by one character of its class leaves no two of them adjacent |
| SmcUtilities.CollapseNewlinesShape | src/FiniteStateMachines/SMC/utilities.ts:13 | after the first step no two newlines are adjacent |
| SmcUtilities.CollapseBlanksShape | src/FiniteStateMachines/SMC/utilities.ts:14 | after the second step there is no tab and no two adjacent spaces |
| SmcUtilities.TrimNoSpaceNextToNewline | src/FiniteStateMachines/SMC/utilities.ts:15 | the third step never leaves a space beside a newline |
| SmcUtilities.TrimNoDoubleSpace | src/FiniteStateMachines/SMC/utilities.ts:15 | the third step keeps "no two adjacent spaces" |
| SmcUtilities.TrimKeepsShape | src/FiniteStateMachines/SMC/utilities.ts:15 | the third step keeps the second step's shape and adds its own |
| SmcUtilities.CollapseIdentity | src/FiniteStateMachines/SMC/utilities.ts:13-14 | a text without the class's characters is left unchanged |
| SmcUtilities.TrimIdentity | src/FiniteStateMachines/SMC/utilities.ts:15 | a text without spaces or newlines is left unchanged |
| SmcUtilities.CompressWithoutWhitespace | src/FiniteStateMachines/SMC/utilities.ts:11-16 | a text without whitespace passes through unchanged |
| OptimizedStateMachines.SubTransitionStrings | src/FiniteStateMachines/SMC/optimizer/Transition.ts:6-9 | one sub-transition line per sub-transition, in order |
| OptimizedStateMachines.Indent | src/FiniteStateMachines/SMC/optimizer/OptimizedStateMachine.ts:18 | every newline gains two spaces after it |
| OptimizedStateMachines.IndentAppend | src/FiniteStateMachines/SMC/optimizer/OptimizedStateMachine.ts:18 | indenting a concatenation indents each part |
| OptimizedStateMachines.UnindentIndent | src/FiniteStateMachines/SMC/optimizer/OptimizedStateMachine.ts:18 | removing the indentation gives the text back |
| OptimizedStateMachines.IndentDropLastTwo | src/FiniteStateMachines/SMC/optimizer/OptimizedStateMachine.ts:18-19 | cutting the last two characters removes exactly the spaces the final newline gained |
| OptimizedStateMachines.OptimizedStateMachine.constructor | src/FiniteStateMachines/SMC/optimizer/OptimizedStateMachine.ts:1-6 | empty lists and no header |
| OptimizedStateMachines.OptimizedStateMachine.TransitionsToString | src/FiniteStateMachines/SMC/optimizer/OptimizedStateMachine.ts:8-14 | the loop's result is the transitions' texts, appended in order |
| OptimizedStateMachines.OptimizedStateMachine.ToString | src/FiniteStateMachines/SMC/optimizer/OptimizedStateMachine.ts:16-21 | the machine text of the header and the transitions' texts; the header must be set |
| OptimizedStateMachines.TransitionStringShape | src/FiniteStateMachines/SMC/optimizer/Transition.ts:6-9 | a transition's text is its header line, its sub-transition lines in order, then "}\n" |
| OptimizedStateMachines.TransitionsTextEnds | src/FiniteStateMachines/SMC/optimizer/OptimizedStateMachine.ts:8-14 | with at least one transition the text ends in a newline |
| OptimizedStateMachines.MachineTextShape | src/FiniteStateMachines/SMC/optimizer/OptimizedStateMachine.ts:16-21 | the header lines, "{", each transition line indented by two spaces, then "}" |
| OptimizedStateMachines.ActionsStringSplits | src/FiniteStateMachines/SMC/optimizer/SubTransition.ts:8-10 | the space-joined actions split back into the actions when none holds a space |
| OptimizedStateMachines.ActionsString | src/FiniteStateMachines/SMC/optimizer/SubTransition.ts:8-10 | no actions give "", one action gives itself, and more give the first followed by a space |
| OptimizedStateMachines.SubTransitionString | src/FiniteStateMachines/SMC/optimizer/SubTransition.ts:4-6 | the indented event and next state, then the space-joined actions between braces, then the line break |
| OptimizedStateMachines.TransitionString | src/FiniteStateMachines/SMC/optimizer/Transition.ts:6-9 | a transition's text opens with "state {" on its own line and ends with the closing brace |
| OptimizedStateMachines.MachineText | src/FiniteStateMachines/SMC/optimizer/OptimizedStateMachine.ts:16-21 | the machine text opens with the header lines and ends with the closing brace |
| Optimizers.LeafFirst | src/FiniteStateMachines/SMC/optimizer/Optimizer.ts:54-58 | the hierarchy with the missing ancestors of the state, then the state; indices stay in range |
| Optimizers.SupersLeafFirst | src/FiniteStateMachines/SMC/optimizer/Optimizer.ts:55-56 | the loop over the first n super-states; indices stay in range |
| Optimizers.RootFirst | src/FiniteStateMachines/SMC/optimizer/Optimizer.ts:80-85 | the reversed hierarchy, within range |
| Optimizers.Passing | src/FiniteStateMachines/SMC/optimizer/Optimizer.ts:87-95 | only transitions with an event not yet taken pass, in order |
| Optimizers.SubsFor | src/FiniteStateMachines/SMC/optimizer/Optimizer.ts:87-102 | one optimized sub-transition per passing transition, in order |
| Optimizers.AncestorRank | src/FiniteStateMachines/SMC/optimizer/Optimizer.ts:54-58 | an ancestor never has a higher rank, so the recursion ends |
| Optimizers.LeafFirstGrows | src/FiniteStateMachines/SMC/optimizer/Optimizer.ts:54-58 | the walk extends the list, adds only ancestors and ends with the state |
| Optimizers.LeafFirstKeeps | src/FiniteStateMachines/SMC/optimizer/Optimizer.ts:54-58 | a walk from a state not yet listed keeps the list free of duplicates and every state after its super-states |
| Optimizers.SupersLeafFirstGrows | src/FiniteStateMachines/SMC/optimizer/Optimizer.ts:55-56 | the loop adds each super-state and only their ancestors |
| Optimizers.SupersLeafFirstKeeps | src/FiniteStateMachines/SMC/optimizer/Optimizer.ts:55-56 | the loop keeps the list free of duplicates and every state after its super-states |
| Optimizers.SupersFirstClosed | src/FiniteStateMachines/SMC/optimizer/Optimizer.ts:54-58 | in a super-states-first list the ancestors of a member are members |
| Optimizers.LeafFirstFacts | src/FiniteStateMachines/SMC/optimizer/Optimizer.ts:54-58 | from an empty list the walk lists every ancestor exactly once, each after its super-states, and the state last |
| Optimizers.RootFirstStarts | src/FiniteStateMachines/SMC/optimizer/Optimizer.ts:80-85 | the root-first hierarchy starts with the state and holds exactly its ancestors, once each |
| Optimizers.PassingKeeps | src/FiniteStateMachines/SMC/optimizer/Optimizer.ts:87-95 | a transition whose event is present and not taken passes |
| Optimizers.PassingDistinct | src/FiniteStateMachines/SMC/optimizer/Optimizer.ts:87-95 | filtering keeps distinct events distinct |
| Optimizers.SeenDefined | src/FiniteStateMachines/SMC/optimizer/Optimizer.ts:74-102 | a seen event is defined by some state of the hierarchy |
| Optimizers.DefinedSeen | src/FiniteStateMachines/SMC/optimizer/Optimizer.ts:74-102 | an event defined by a state of the hierarchy is seen |
| Optimizers.TableSeen | src/FiniteStateMachines/SMC/optimizer/Optimizer.ts:74-102 | the seen events are exactly those some state of the hierarchy defines |
| Optimizers.TableSubSeen | src/FiniteStateMachines/SMC/optimizer/Optimizer.ts:74-102 | every sub-transition's event has been seen |
| Optimizers.TableSubFor | src/FiniteStateMachines/SMC/optimizer/Optimizer.ts:74-102 | every seen event has a sub-transition |
| Optimizers.TableFirst | src/FiniteStateMachines/SMC/optimizer/Optimizer.ts:74-102 | each sub-transition comes from the first state of the hierarchy that defines its event |
| Optimizers.TableDistinct | src/FiniteStateMachines/SMC/optimizer/Optimizer.ts:74-102 | with distinct events per state, one sub-transition per event |
| Optimizers.TableStep | src/FiniteStateMachines/SMC/optimizer/Optimizer.ts:87-91 | one more hierarchy state adds exactly its passing transitions |
| Optimizers.StateTableEvents | src/FiniteStateMachines/SMC/optimizer/Optimizer.ts:68-102 | a state's table has a sub-transition on an event exactly when the state or an ancestor defines it |
| Optimizers.StateTableDistinct | src/FiniteStateMachines/SMC/optimizer/Optimizer.ts:68-102 | with distinct events per state, a state's table has one sub-transition per event |
| Optimizers.OwnDefinitionWins | src/FiniteStateMachines/SMC/optimizer/Optimizer.ts:74-95 | an event the state defines itself is taken from its own transitions, overriding its ancestors |
| Optimizers.ExitOrder | src/FiniteStateMachines/SMC/optimizer/Optimizer.ts:134-141 | exit actions run from the state outwards: its own first |
| Optimizers.EntryOrder | src/FiniteStateMachines/SMC/optimizer/Optimizer.ts:125-132 | entry actions run from the outermost ancestor in: the target's own last |
| Optimizers.ActionOrder | src/FiniteStateMachines/SMC/optimizer/Optimizer.ts:112-123 | a sub-transition runs the exits outwards, then the entries inwards when there is a target, then its own actions |
| Optimizers.ConcreteNameListed | src/FiniteStateMachines/SMC/optimizer/Optimizer.ts:41-44 | every concrete state's name is listed |
| Optimizers.ListedNameConcrete | src/FiniteStateMachines/SMC/optimizer/Optimizer.ts:41-44 | every listed name is a concrete state's |
| Optimizers.ConcreteAligned | src/FiniteStateMachines/SMC/optimizer/Optimizer.ts:34-44 | one transition per concrete state, in the order of the state list |
| Optimizers.OptimizeSub | src/FiniteStateMachines/SMC/optimizer/Optimizer.ts:112-123 | the event and target name are the transition's ("" when absent); the state's own exit actions come first and the transition's own actions last |
| Optimizers.TransitionFor | src/FiniteStateMachines/SMC/optimizer/Optimizer.ts:68-72 | the table is named after the state, and each of its events is defined by the state or one of its ancestors |
| Optimizers.Optimized | src/FiniteStateMachines/SMC/optimizer/Optimizer.ts:14-44 | the machine has a header and one transition per listed concrete state, in the same order |
| Optimizers.Optimizer.Optimize | src/FiniteStateMachines/SMC/optimizer/Optimizer.ts:14-21 | a new machine equal to the optimized form of the semantic machine |
| Optimizers.Optimizer.AddHeader | src/FiniteStateMachines/SMC/optimizer/Optimizer.ts:23-26 | the header takes the name, initial state and action class, with "" for absent ones |
| Optimizers.Optimizer.AddLists | src/FiniteStateMachines/SMC/optimizer/Optimizer.ts:28-32 | the concrete state names, the events and the actions are appended |
| Optimizers.Optimizer.AddTransitions | src/FiniteStateMachines/SMC/optimizer/Optimizer.ts:34-39 | one transition per concrete state is appended, in order |
| Optimizers.Optimizer.AddTransitionsOf | src/FiniteStateMachines/SMC/optimizer/Optimizer.ts:36-37 | a concrete state appends its flattened transition, an abstract one nothing |
| Optimizers.Optimizer.AddStates | src/FiniteStateMachines/SMC/optimizer/Optimizer.ts:41-44 | the concrete state names are appended, in order |
| Optimizers.Optimizer.AddEvents | src/FiniteStateMachines/SMC/optimizer/Optimizer.ts:46-48 | the events are appended |
| Optimizers.Optimizer.AddActions | src/FiniteStateMachines/SMC/optimizer/Optimizer.ts:50-52 | the actions are appended |
| Optimizers.Optimizer.AddAllStatesInHierarchyLeafFirst | src/FiniteStateMachines/SMC/optimizer/Optimizer.ts:54-58 | the result is the hierarchy walk |
| Optimizers.StateOptimizer.constructor | src/FiniteStateMachines/SMC/optimizer/Optimizer.ts:61-66 | a new helper for the state, with no events taken |
| Optimizers.StateOptimizer.EventExistsAndHasNotBeenOverridden | src/FiniteStateMachines/SMC/optimizer/Optimizer.ts:93-95 | true exactly when there is an event and taking it would add a new event to those taken |
| Optimizers.StateOptimizer.FilterPassing | src/FiniteStateMachines/SMC/optimizer/Optimizer.ts:87-90 | the filter keeps, in order, exactly the transitions of the passing list: an event present and not yet taken |
| Optimizers.Optimizer.constructor | src/FiniteStateMachines/SMC/optimizer/Optimizer.ts:9-12 | new machines in both fields, the optimized one without header or transitions, until optimize sets them |
| Optimizers.StateOptimizer.AddTransitionsForState | src/FiniteStateMachines/SMC/optimizer/Optimizer.ts:68-72 | the state's flattened transition is appended |
| Optimizers.StateOptimizer.AddSubTransitions | src/FiniteStateMachines/SMC/optimizer/Optimizer.ts:74-78 | the sub-transitions of the whole hierarchy, the state first, and the seen events |
| Optimizers.StateOptimizer.MakeRootFirstHierarchyOfStates | src/FiniteStateMachines/SMC/optimizer/Optimizer.ts:80-85 | the reversed walk, starting with the state |
| Optimizers.StateOptimizer.AddStateTransitions | src/FiniteStateMachines/SMC/optimizer/Optimizer.ts:87-91 | the passing transitions are filtered first, then each becomes a sub-transition |
| Optimizers.StateOptimizer.AddSubTransition | src/FiniteStateMachines/SMC/optimizer/Optimizer.ts:97-102 | the event is taken and the optimized sub-transition appended |
| Optimizers.SubTransitionOptimizer.constructor | src/FiniteStateMachines/SMC/optimizer/Optimizer.ts:105-110 | a new helper over the transition, sub-transition and state |
| Optimizers.SubTransitionOptimizer.Optimize | src/FiniteStateMachines/SMC/optimizer/Optimizer.ts:112-123 | event and next state set, exit, entry and own actions appended |
| Optimizers.SubTransitionOptimizer.AddEntryActions | src/FiniteStateMachines/SMC/optimizer/Optimizer.ts:125-132 | the entry actions of the target's hierarchy, outermost first |
| Optimizers.SubTransitionOptimizer.AddExitActions | src/FiniteStateMachines/SMC/optimizer/Optimizer.ts:134-141 | the exit actions of the state's hierarchy, its own first |
| NSCNodes.NewSwitchCaseNode | src/FiniteStateMachines/SMC/generators/nestedSwitchCaseGenerator/NSCNode.ts:7-10 | a switch over the variable with no cases |
| NSCNodes.NewCaseNode | src/FiniteStateMachines/SMC/generators/nestedSwitchCaseGenerator/NSCNode.ts:23-24 | a case with no action node |
| NSCNodes.NewFSMClassNode | src/FiniteStateMachines/SMC/generators/nestedSwitchCaseGenerator/NSCNode.ts:77-85 | every part null and no actions |
| NSCNodes.Accept | src/FiniteStateMachines/SMC/generators/nestedSwitchCaseGenerator/NSCNode.ts:39-46 | a visitor is never handed a composite; any other node is handed over once, as itself |
| NSCNodes.AcceptAll | src/FiniteStateMachines/SMC/generators/nestedSwitchCaseGenerator/NSCNode.ts:39-46 | a run of nodes hands over no composite, and at least one node for each node that is not a composite |
| NSCNodes.AcceptAllAppend | src/FiniteStateMachines/SMC/generators/nestedSwitchCaseGenerator/NSCNode.ts:42-46 | visiting two runs of nodes in turn is visiting their concatenation |
| NSCNodes.AcceptAllFlatten | src/FiniteStateMachines/SMC/generators/nestedSwitchCaseGenerator/NSCNode.ts:39-50 | nesting composites does not change what is visited |
| NSCNodes.CompositeNode.constructor | src/FiniteStateMachines/SMC/generators/nestedSwitchCaseGenerator/NSCNode.ts:39-40 | a new composite holds no nodes |
| NSCNodes.CompositeNode.Add | src/FiniteStateMachines/SMC/generators/nestedSwitchCaseGenerator/NSCNode.ts:48-50 | the node goes to the end, so it is visited after every earlier child |
| JavaImplementers.JavaNestedSwitchCaseImplementer.constructor | src/FiniteStateMachines/SMC/implementers/JavaNestedSwitchCaseImplementer.ts:22-27 | empty output; the package is the "package" flag when there is one |
| JavaImplementers.JavaNestedSwitchCaseImplementer.Visit | src/FiniteStateMachines/SMC/implementers/JavaNestedSwitchCaseImplementer.ts:29-84 | the output gains exactly the node's text |
| JavaImplementers.JavaNestedSwitchCaseImplementer.VisitSwitchCase | src/FiniteStateMachines/SMC/implementers/JavaNestedSwitchCaseImplementer.ts:30-33 | the switch branch appends its text |
| JavaImplementers.JavaNestedSwitchCaseImplementer.VisitCase | src/FiniteStateMachines/SMC/implementers/JavaNestedSwitchCaseImplementer.ts:34-37 | the case branch appends its text |
| JavaImplementers.JavaNestedSwitchCaseImplementer.VisitFunctionCall | src/FiniteStateMachines/SMC/implementers/JavaNestedSwitchCaseImplementer.ts:38-41 | the function-call branch appends its text |
| JavaImplementers.JavaNestedSwitchCaseImplementer.VisitHandleEvent | src/FiniteStateMachines/SMC/implementers/JavaNestedSwitchCaseImplementer.ts:75-78 | the handleEvent branch wraps the switch in the method |
| JavaImplementers.JavaNestedSwitchCaseImplementer.VisitEnum | src/FiniteStateMachines/SMC/implementers/JavaNestedSwitchCaseImplementer.ts:42-43 | the enum branch appends the enum declaration with its comma-separated enumerators |
| JavaImplementers.JavaNestedSwitchCaseImplementer.VisitStateProperty | src/FiniteStateMachines/SMC/implementers/JavaNestedSwitchCaseImplementer.ts:44-46 | the state-property branch appends the state field, then its setter |
| JavaImplementers.JavaNestedSwitchCaseImplementer.VisitEnumerator | src/FiniteStateMachines/SMC/implementers/JavaNestedSwitchCaseImplementer.ts:79-80 | the enumerator branch appends "Enumeration.value" |
| JavaImplementers.JavaNestedSwitchCaseImplementer.VisitFSMClass | src/FiniteStateMachines/SMC/implementers/JavaNestedSwitchCaseImplementer.ts:51-74 | the class text: head, present parts in order, abstracts, "}" |
| JavaImplementers.JavaNestedSwitchCaseImplementer.VisitClassHead | src/FiniteStateMachines/SMC/implementers/JavaNestedSwitchCaseImplementer.ts:52-61 | the package line if any, then the class line |
| JavaImplementers.JavaNestedSwitchCaseImplementer.VisitClassBody | src/FiniteStateMachines/SMC/implementers/JavaNestedSwitchCaseImplementer.ts:63-68 | unhandledTransition, then each present part in order |
| JavaImplementers.JavaNestedSwitchCaseImplementer.VisitDelegators | src/FiniteStateMachines/SMC/implementers/JavaNestedSwitchCaseImplementer.ts:47-50 | one delegator method per event, in order |
| JavaImplementers.JavaNestedSwitchCaseImplementer.VisitAbstracts | src/FiniteStateMachines/SMC/implementers/JavaNestedSwitchCaseImplementer.ts:69-73 | one abstract method per action, in order |
| JavaImplementers.JavaNestedSwitchCaseImplementer.AcceptOptional | src/FiniteStateMachines/SMC/implementers/JavaNestedSwitchCaseImplementer.ts:64-68 | an absent part adds nothing |
| JavaImplementers.JavaNestedSwitchCaseImplementer.Accept | src/FiniteStateMachines/SMC/generators/nestedSwitchCaseGenerator/NSCNode.ts:39-46 | a composite forwards to its children; any other node is visited |
| JavaImplementers.JavaNestedSwitchCaseImplementer.GenerateCases | src/FiniteStateMachines/SMC/generators/nestedSwitchCaseGenerator/NSCNode.ts:16-20 | each case node is accepted, in order |
| JavaImplementers.JavaNestedSwitchCaseImplementer.AcceptAll | src/FiniteStateMachines/SMC/generators/nestedSwitchCaseGenerator/NSCNode.ts:42-46 | each node is accepted, in order |
| JavaImplementers.JavaNestedSwitchCaseImplementer.GetOutput | src/FiniteStateMachines/SMC/implementers/JavaNestedSwitchCaseImplementer.ts:86-88 | everything appended since construction |
| JavaImplementers.AcceptTextIsVisits | src/FiniteStateMachines/SMC/implementers/JavaNestedSwitchCaseImplementer.ts:29-84 | what accept appends is what visit appends for each node the tree hands over |
| JavaImplementers.AcceptAllTextIsVisits | src/FiniteStateMachines/SMC/implementers/JavaNestedSwitchCaseImplementer.ts:29-84 | the same for a run of nodes |
| JavaImplementers.VisitsTextAppend | src/FiniteStateMachines/SMC/implementers/JavaNestedSwitchCaseImplementer.ts:29-84 | visiting two runs in turn appends their texts in turn |
| JavaImplementers.DelegatorsAppend | src/FiniteStateMachines/SMC/implementers/JavaNestedSwitchCaseImplementer.ts:47-50 | delegators for two runs of events are each run's delegators in turn |
| JavaImplementers.DelegatorLines | src/FiniteStateMachines/SMC/implementers/JavaNestedSwitchCaseImplementer.ts:47-50 | each event has its own delegator line |
| JavaImplementers.AbstractLines | src/FiniteStateMachines/SMC/implementers/JavaNestedSwitchCaseImplementer.ts:69-73 | each action has its own abstract-method line, in order |
| JavaImplementers.PackageLine | src/FiniteStateMachines/SMC/implementers/JavaNestedSwitchCaseImplementer.ts:52-61 | the class text starts with "package p;" exactly when a non-empty package was given |
| JavaImplementers.ActionsChoice | src/FiniteStateMachines/SMC/implementers/JavaNestedSwitchCaseImplementer.ts:56-73 | with an actions interface the class implements it and emits no actions; without one, each action is abstract |
| JavaImplementers.FSMClassText | src/FiniteStateMachines/SMC/implementers/JavaNestedSwitchCaseImplementer.ts:51-74 | the class text ends with the class's closing brace |
| JavaImplementers.VisitText | src/FiniteStateMachines/SMC/implementers/JavaNestedSwitchCaseImplementer.ts:29-84 | a composite matches no branch and adds nothing; a class, a switch and a handleEvent method each close with a brace |
| JavaImplementers.DelegatorsText | src/FiniteStateMachines/SMC/implementers/JavaNestedSwitchCaseImplementer.ts:47-50 | no events give no text, and each event adds at least one character |
| JavaImplementers.AbstractsText | src/FiniteStateMachines/SMC/implementers/JavaNestedSwitchCaseImplementer.ts:69-73 | no actions give no abstract methods, and each action adds at least one character |
| JavaImplementers.PackageText | src/FiniteStateMachines/SMC/implementers/JavaNestedSwitchCaseImplementer.ts:52-54 | a package line exactly when the package is present and non-empty, as "package p;" |
| JavaImplementers.ClassLine | src/FiniteStateMachines/SMC/implementers/JavaNestedSwitchCaseImplementer.ts:56-61 | "public abstract class" and the name (or "null"), then " implements X" exactly when an actions interface is named, then the brace |
| JavaImplementers.SwitchText | src/FiniteStateMachines/SMC/implementers/JavaNestedSwitchCaseImplementer.ts:30-33 | "switch(v) {" opens the switch and a brace closes it |
| JavaImplementers.CaseText | src/FiniteStateMachines/SMC/implementers/JavaNestedSwitchCaseImplementer.ts:34-37 | "case X:" opens the case and "break;" closes it |
| JavaImplementers.CallText | src/FiniteStateMachines/SMC/implementers/JavaNestedSwitchCaseImplementer.ts:38-41 | the function name and "(" open the call and ");" closes it |
| JavaImplementers.HandleEventText | src/FiniteStateMachines/SMC/implementers/JavaNestedSwitchCaseImplementer.ts:75-78 | the handleEvent method header opens the text and a brace closes it |
| TableDrivenTurnstile.FindRow | src/FiniteStateMachines/TableDrivenTurnstileFSM.ts:34-36 | the first row for the state and event, or past the end when there is none |
| TableDrivenTurnstile.Turnstile.PerformAction | src/FiniteStateMachines/TableDrivenTurnstileFSM.ts:43 | the action is performed in the current state, which it does not change |
| TableDrivenTurnstile.TableDrivenTurnstileFSM.constructor | src/FiniteStateMachines/TableDrivenTurnstileFSM.ts:16-31 | the machine holds the four-row table and the turnstile |
| TableDrivenTurnstile.Turnstile.constructor | src/FiniteStateMachines/TableDrivenTurnstileFSM.ts:31 | the turnstile the machine drives starts in the given state with no action performed |
| TableDrivenTurnstile.TableDrivenTurnstileFSM.HandleEvent | src/FiniteStateMachines/TableDrivenTurnstileFSM.ts:33-44 | with a row the state moves to its target and then its action runs; without one, the invalid-transition error and no change |
| TableDrivenTurnstile.TableIsNext | src/FiniteStateMachines/TableDrivenTurnstileFSM.ts:16-29 | every state and event has a row, and it agrees with the turnstile's transition function |
| TableDrivenTurnstile.TableDeterministic | src/FiniteStateMachines/TableDrivenTurnstileFSM.ts:16-29 | no state and event occur in two rows |
| TableDrivenTurnstile.Next | src/FiniteStateMachines/TableDrivenTurnstileFSM.ts:16-29 | a coin unlocks and a pass locks; the state stays the same exactly when the action is the alarm or the thank-you |
| Mementos.MementoOf | src/Memento/TextEditorWithMementoAndUndo.ts:23-26 | reconstructing a memento gives its state back |
| Mementos.Texts | src/Memento/TextEditorWithMementoAndUndo.ts:28-31 | the texts the stacked mementos restore, in order |
| Mementos.AfterSetText | src/Memento/TextEditorWithMementoAndUndo.ts:67-70 | the new text is current and the old one is stacked on top of the earlier ones |
| Mementos.AfterUndo | src/Memento/TextEditorWithMementoAndUndo.ts:80-88 | with nothing stacked nothing changes; otherwise the stack shrinks by one and setting the text again restores the editor as it was |
| Mementos.TextEditorWithMemento.constructor | src/Memento/TextEditorWithMementoAndUndo.ts:37-41 | the editor starts with the given text, "" by default |
| Mementos.TextEditorWithMemento.SetText | src/Memento/TextEditorWithMementoAndUndo.ts:43-45 | the text is replaced |
| Mementos.TextEditorWithMemento.GetText | src/Memento/TextEditorWithMementoAndUndo.ts:47-49 | the current text |
| Mementos.TextEditorWithMemento.GetMemento | src/Memento/TextEditorWithMementoAndUndo.ts:51-53 | restoring the result gives back the current text |
| Mementos.TextEditorWithMemento.SetMemento | src/Memento/TextEditorWithMementoAndUndo.ts:55-57 | the text becomes the memento's |
| Mementos.TextEditorWithUndo.constructor | src/Memento/TextEditorWithMementoAndUndo.ts:62-66 | no mementos stacked |
| Mementos.TextEditorWithUndo.SetText | src/Memento/TextEditorWithMementoAndUndo.ts:67-70 | the old text is stacked, then replaced |
| Mementos.TextEditorWithUndo.RememberCurrentState | src/Memento/TextEditorWithMementoAndUndo.ts:72-74 | the current text is stacked |
| Mementos.TextEditorWithUndo.GetText | src/Memento/TextEditorWithMementoAndUndo.ts:76-78 | the current text |
| Mementos.TextEditorWithUndo.Undo | src/Memento/TextEditorWithMementoAndUndo.ts:80-88 | the top memento is popped and restored; with none, nothing changes |
| Mementos.UndoAfterSetText | src/Memento/TextEditorWithMementoAndUndo.ts:67-88 | an undo right after an edit restores the editor as it was |
| Mementos.UndosAfterSetTexts | src/Memento/TextEditorWithMementoAndUndo.ts:67-88 | as many undos as edits restore the editor as it was |
| Mementos.UndoEverything | src/Memento/TextEditorWithMementoAndUndo.ts:80-88 | one undo per stacked memento gives the oldest text and an empty stack; more undos change nothing |
| FlyweightLawnmowers.FlyweightLawnmowerSeries.constructor | src/Flyweight/FlyweightLawnmowerSeries.ts:10-16 | the series object holds its data |
| FlyweightLawnmowers.Lawnmower.constructor | src/Flyweight/FlyweightLawnmowerSeries.ts:18-44 | a lawnmower holds its serial number and a shared series object |
| FlyweightLawnmowers.Lookup | src/Flyweight/FlyweightLawnmowerSeries.ts:52-64 | a lawnmower is found exactly when its serial number is registered and its series known, with that series' data |
| FlyweightLawnmowers.LawnmowerStore.constructor | src/Flyweight/FlyweightLawnmowerSeries.ts:49-50 | no serial numbers and no series |
| FlyweightLawnmowers.LawnmowerStore.GetLawnmower | src/Flyweight/FlyweightLawnmowerSeries.ts:52-64 | a new lawnmower sharing the stored series object exactly when the lookup succeeds, whose getters read the looked-up data |
| FlyweightLawnmowers.Lawnmower.Manufacturer | src/Flyweight/FlyweightLawnmowerSeries.ts:25-27 | the manufacturer of the shared series object; a lawnmower from the store reads the looked-up data |
| FlyweightLawnmowers.Lawnmower.Model | src/Flyweight/FlyweightLawnmowerSeries.ts:29-31 | the model of the shared series object |
| FlyweightLawnmowers.Lawnmower.Weight | src/Flyweight/FlyweightLawnmowerSeries.ts:33-35 | the weight of the shared series object |
| FlyweightLawnmowers.Lawnmower.Price | src/Flyweight/FlyweightLawnmowerSeries.ts:37-39 | the price of the shared series object |
| FlyweightLawnmowers.Lawnmower.Picture | src/Flyweight/FlyweightLawnmowerSeries.ts:41-43 | the picture of the shared series object |
| FlyweightLawnmowers.LawnmowerStore.SetLawnmower | src/Flyweight/FlyweightLawnmowerSeries.ts:66-80 | registers the serial number and gives the series a new object; other series keep theirs |
| FlyweightLawnmowers.GetAfterSet | src/Flyweight/FlyweightLawnmowerSeries.ts:52-80 | a lawnmower just registered is found with the data it was registered with |
| FlyweightLawnmowers.SetAffectsOnlyItsSeries | src/Flyweight/FlyweightLawnmowerSeries.ts:52-80 | every lawnmower of that series looked up afterwards reads the new data; lookups of other series and other registered serial numbers are unchanged |
| FlyweightLawnmowers.EarlierLawnmowerKeepsItsData | src/Flyweight/FlyweightLawnmowerSeries.ts:18-79 | a lawnmower handed out before a registration keeps the series object it was built with and so the old data, while the store holds a new object with the new data |
| MonostateDictionaries.DictionaryStatics.constructor | src/Monostate/MonostateDictionary.ts:4 | the shared storage starts undefined |
| MonostateDictionaries.Initialized | src/Monostate/MonostateDictionary.ts:9-14 | the existing dictionary, or an empty one when there is none yet |
| MonostateDictionaries.MonostateDictionary.constructor | src/Monostate/MonostateDictionary.ts:3-4 | every instance works on the shared storage |
| MonostateDictionaries.MonostateDictionary.State | src/Monostate/MonostateDictionary.ts:9-14 | the dictionary is created on first use and left alone afterwards |
| MonostateDictionaries.MonostateDictionary.Set | src/Monostate/MonostateDictionary.ts:16-18 | the shared dictionary maps the key to the value |
| MonostateDictionaries.MonostateDictionary.Get | src/Monostate/MonostateDictionary.ts:20-22 | the value stored under the key by any instance, or nothing |
| MonostateDictionaries.Lookup | src/Monostate/MonostateDictionary.ts:20-22 | a value is found exactly when the key is present, and it is the stored one |
| MonostateDictionaries.GetAfterSet | src/Monostate/MonostateDictionary.ts:16-22 | reading a key gives what was last stored under it, and other keys are unaffected |
| MonostateDictionaries.SharedBetweenInstances | src/Monostate/MonostateDictionary.ts:4-22 | a value stored through one instance is read back through another |
| MonostateDictionaries.RecordGet | src/Monostate/MonostateDictionary.ts:20-22 | as written: an own string when present, an inherited member for Object.prototype names, otherwise undefined |
| MonostateDictionaries.RecordSet | src/Monostate/MonostateDictionary.ts:16-18 | as written: the key is stored, except that "__proto__" is ignored |
| MonostateDictionaries.InheritedKeyShowsThrough | src/Monostate/MonostateDictionary.ts:20-22 | as written, an empty dictionary answers "toString" with an inherited member |
| MonostateDictionaries.ProtoKeyIsDropped | src/Monostate/MonostateDictionary.ts:16-22 | as written, a value stored under "__proto__" cannot be read back |
| MonostateDictionaries.RecordAgreesElsewhere | src/Monostate/MonostateDictionary.ts:16-22 | for every other key the plain object behaves as the map-based dictionary |
| NullObjects.RegularEmployee | src/NullObject/NullObject.ts:8-10 | an employee with the given fields, bonuses allowed by default |
| NullObjects.FindById | src/NullObject/NullObject.ts:31-34 | nothing exactly when no employee has the id; otherwise the first one that does |
| NullObjects.EmployeeDatabase.constructor | src/NullObject/NullObject.ts:23-25 | no employees, the given bonus (0 by default) |
| NullObjects.EmployeeDatabase.AddEmployee | src/NullObject/NullObject.ts:27-29 | the employee goes to the end of the list |
| NullObjects.EmployeeDatabase.GetEmployeeById | src/NullObject/NullObject.ts:31-34 | the null employee when nobody has the id, else the first employee that does |
| NullObjects.Pay | src/NullObject/NullObject.ts:38-39 | salary times tenure, plus the bonus only for an employee who may receive it; a non-negative bonus never lowers the pay |
| NullObjects.TotalPay | src/NullObject/NullObject.ts:36-42 | the total is not negative when no single pay is, and is 0 for a list of null employees |
| NullObjects.TotalPayAppend | src/NullObject/NullObject.ts:36-42 | adding an employee adds exactly that employee's pay |
| NullObjects.TotalPaySplit | src/NullObject/NullObject.ts:36-42 | the total of a list is the sum of the totals of its parts |
| NullObjects.NullEmployeeIsPaidNothing | src/NullObject/NullObject.ts:12-17 | the null employee is paid nothing and never changes a total |
| NullObjects.BonusCountsPerEligibleEmployee | src/NullObject/NullObject.ts:36-42 | the bonus is paid once to each employee who may receive it, and to nobody else |
| SquintIterators.NumberIterator.constructor | src/Iterator/SquintIterator.ts:1-14 | a new generator over its source, with no steps taken |
| SquintIterators.NumberIterator.Next | src/Iterator/SquintIterator.ts:1-14 | the value at the current step, or done; one more step taken |
| SquintIterators.NthValue | src/Iterator/SquintIterator.ts:1-14 | an endless generator always yields a positive value; a list generator yields exactly while items remain |
| SquintIterators.Take | src/Iterator/SquintIterator.ts:16-26 | the i-th value collected is the generator's value at that step, and collecting fewer than n means the generator was done |
| SquintIterators.TakeFrom | src/Iterator/SquintIterator.ts:16-26 | collects what `Take` says and advances the generator by the steps `take` makes |
| SquintIterators.TakeLength | src/Iterator/SquintIterator.ts:16-26 | take never collects more than n values |
| SquintIterators.TakeItems | src/Iterator/SquintIterator.ts:16-26 | from a list, take collects the first n remaining items, or all of them when there are fewer |
| SquintIterators.TakeIntegers | src/Iterator/SquintIterator.ts:1-8 | the integers generator counts from 1 and never ends |
| SquintIterators.TakeSquares | src/Iterator/SquintIterator.ts:10-14 | taking from a squares generator squares what its source would give |
| SquintIterators.FirstFiveSquares | src/Iterator/SquintIterator.ts:1-26 | the first five squares are 1, 4, 9, 16, 25 |
| PartExtensions.DigitsText | src/ExtensionObject/PartExtension.ts:46-48 | the decimal digits of a price, non-empty |
| PartExtensions.DigitsRoundTrip | src/ExtensionObject/PartExtension.ts:46-48 | reading the digits back gives the number |
| PartExtensions.PriceText | src/ExtensionObject/PartExtension.ts:46-48 | a minus sign exactly for a negative price, then only decimal digits |
| PartExtensions.PriceRoundTrip | src/ExtensionObject/PartExtension.ts:46-48 | the rendered price reads back as the price |
| PartExtensions.PieceReport | src/ExtensionObject/PartExtension.ts:46-92 | an explosion report names the piece after its prefix and ends with " at $" and the price; a cromulent one is its prefix and the name |
| PartExtensions.AssemblyHeader | src/ExtensionObject/PartExtension.ts:56-101 | the kind's prefix, the assembly's name, then ".\n" |
| PartExtensions.Report | src/ExtensionObject/PartExtension.ts:46-101 | a piece reports its own line; an assembly's report opens with its header |
| PartExtensions.PartsReports | src/ExtensionObject/PartExtension.ts:60-79 | on success, one report per part, in order, each the part's own report |
| PartExtensions.ReportSucceeds | src/ExtensionObject/PartExtension.ts:51-123 | a report succeeds exactly when every part inside, at every depth, has an extension of the right kind |
| PartExtensions.PartsReportsSucceed | src/ExtensionObject/PartExtension.ts:60-79 | the parts' reports succeed exactly when each part has the extension and is reportable |
| PartExtensions.ReportErrors | src/ExtensionObject/PartExtension.ts:60-79 | a failed report carries the missing-extension or wrong-class message of its kind |
| PartExtensions.PartsReportsErrors | src/ExtensionObject/PartExtension.ts:60-79 | the same for a list of parts |
| PartExtensions.CreatePartExtension | src/ExtensionObject/PartExtension.ts:126-145 | "explosion" and "cromulent" give an extension of that kind; anything else fails with "Unknown extension type" |
| PartExtensions.CreatePartWithExtension | src/ExtensionObject/PartExtension.ts:148-157 | a piece or empty assembly with the name, price and one extension; unknown types fail |
| PartExtensions.CreatedPartReports | src/ExtensionObject/PartExtension.ts:41-157 | a created part reports through the extension it was created with |
| PartExtensions.AssemblyReport | src/ExtensionObject/PartExtension.ts:51-80 | an assembly's report is its header and then each part's report, one per line |
| ObserverLists.RemoveFirst | src/Observer/v1PullObserver.ts:14-19 | an absent observer leaves the list alone; a present one shortens it by one |
| ObserverLists.Pushed | src/Observer/v3PushObserver.ts:29-33 | one call per observer, in list order, each with the message |
| ObserverLists.RemoveFirstOccurrence | src/Observer/v1PullObserver.ts:14-19 | only the first occurrence goes; everything before and after it stays, in order |
| ObserverLists.RemoveFirstMultiset | src/Observer/v1PullObserver.ts:14-19 | removal takes exactly one copy of the observer out, and nothing else |
| ObserverLists.RemoveOneOfTwo | src/Observer/v1PullObserver.ts:14-19 | an observer registered twice stays registered after one removal |
| ObserverLists.AddThenRemove | src/Observer/v1PullObserver.ts:10-19 | removing a newly added observer restores the list |
| ObserverLists.PushedAfterAdd | src/Observer/v1PullObserver.ts:10-25 | a newly added observer is notified last |
| PullObserversV1.ConcretePullSubject.constructor | src/Observer/v1PullObserver.ts:45-46 | no observers, empty message, no calls |
| PullObserversV1.ConcretePullSubject.AddObserver | src/Observer/v1PullObserver.ts:10-12 | the observer goes to the end of the list |
| PullObserversV1.ConcretePullSubject.RemoveObserver | src/Observer/v1PullObserver.ts:14-19 | the first occurrence of the observer is removed |
| PullObserversV1.ConcretePullSubject.Update | src/Observer/v1PullObserver.ts:40-42 | the observer is recorded reading this subject's current message; which subject it really reads is under "## Left out" |
| PullObserversV1.ConcretePullSubject.NotifyObservers | src/Observer/v1PullObserver.ts:21-25 | every observer, in list order, is recorded once reading this subject's current message |
| PullObserversV1.ConcretePullSubject.SetMessage | src/Observer/v1PullObserver.ts:48-51 | the message is stored first, so every observer, in list order, is recorded reading the new one |
| PullObserversV1.ConcretePullSubject.GetMessage | src/Observer/v1PullObserver.ts:53-55 | the current message |
| PullObserversV2.PullSubjectImpl.constructor | src/Observer/v2PullObserverDecoupled.ts:25-40 | no observers and no calls |
| PullObserversV2.PullSubjectImpl.AddObserver | src/Observer/v2PullObserverDecoupled.ts:25-27 | the observer goes to the end of the list |
| PullObserversV2.PullSubjectImpl.RemoveObserver | src/Observer/v2PullObserverDecoupled.ts:29-34 | the first occurrence of the observer is removed |
| PullObserversV2.PullSubjectImpl.NotifyObservers | src/Observer/v2PullObserverDecoupled.ts:36-40 | one update call per list entry, in list order |
| PullObserversV2.ObservedPullSubject.constructor | src/Observer/v2PullObserverDecoupled.ts:43-46 | a new subject of its own, empty message |
| PullObserversV2.ObservedPullSubject.AddObserver | src/Observer/v2PullObserverDecoupled.ts:47-49 | delegated to its subject |
| PullObserversV2.ObservedPullSubject.RemoveObserver | src/Observer/v2PullObserverDecoupled.ts:51-53 | delegated to its subject |
| PullObserversV2.ObservedPullSubject.NotifyObservers | src/Observer/v2PullObserverDecoupled.ts:55-57 | delegated to its subject; every observer, in list order, reads this subject's current message once |
| PullObserversV2.ObservedPullSubject.SetMessage | src/Observer/v2PullObserverDecoupled.ts:59-62 | the message is stored first, so every observer, in list order, is called once and reads the new message |
| PullObserversV2.ObservedPullSubject.GetMessage | src/Observer/v2PullObserverDecoupled.ts:64-66 | the current message |
| PushObservers.PushSubjectImpl.constructor | src/Observer/v3PushObserver.ts:18-33 | no observers and no calls |
| PushObservers.PushSubjectImpl.AddObserver | src/Observer/v3PushObserver.ts:18-20 | the observer goes to the end of the list |
| PushObservers.PushSubjectImpl.RemoveObserver | src/Observer/v3PushObserver.ts:22-27 | the first occurrence of the observer is removed |
| PushObservers.PushSubjectImpl.NotifyObservers | src/Observer/v3PushObserver.ts:29-33 | every observer, in list order, is pushed the message |
| PushObservers.ObservedPushSubject.constructor | src/Observer/v3PushObserver.ts:36-39 | a new subject of its own, empty message |
| PushObservers.ObservedPushSubject.AddObserver | src/Observer/v3PushObserver.ts:40-42 | delegated to its subject |
| PushObservers.ObservedPushSubject.RemoveObserver | src/Observer/v3PushObserver.ts:44-46 | delegated to its subject |
| PushObservers.ObservedPushSubject.NotifyObservers | src/Observer/v3PushObserver.ts:48-50 | delegated to its subject |
| PushObservers.ObservedPushSubject.SetMessage | src/Observer/v3PushObserver.ts:52-55 | stores the message and pushes that same message to every observer |
| PushObservers.ObservedPushSubject.GetMessage | src/Observer/v3PushObserver.ts:57-59 | the current message |
| ModelViewPresenter.Model.constructor | src/Observer/MVP.ts:13 | no data yet |
| ModelViewPresenter.Element.constructor | src/Observer/MVP.ts:29-32 | an element holding the given text |
| ModelViewPresenter.View.constructor | src/Observer/MVP.ts:38-41 | the view keeps the input and output elements it is given |
| ModelViewPresenter.Presenter.constructor | src/Observer/MVP.ts:56-59 | the presenter keeps the model and view it is given |
| ModelViewPresenter.Model.GetData | src/Observer/MVP.ts:15-17 | the current data |
| ModelViewPresenter.Model.SetData | src/Observer/MVP.ts:19-23 | always stores the data, and reports whether it differs from what was there |
| ModelViewPresenter.View.GetInputValue | src/Observer/MVP.ts:43-45 | the input element's value |
| ModelViewPresenter.View.SetOutputValue | src/Observer/MVP.ts:47-49 | the output element takes the value |
| ModelViewPresenter.Presenter.HandleInputChange | src/Observer/MVP.ts:61-71 | the input goes to the model; the output is rewritten only when the model changed |
| ModelViewPresenter.HandleInput | src/Observer/MVP.ts:61-71 | the model always holds the input; the output becomes the input exactly when the model did not already hold it, and is left untouched otherwise |
| ModelViewPresenter.HandleInputIdempotent | src/Observer/MVP.ts:61-71 | handling the same input twice has the effect of handling it once |
| ModelViewPresenter.HandleInputKeepsOutputInSync | src/Observer/MVP.ts:61-71 | once the output shows the model's data, every handled input keeps it so |

## Left out

- Hashing: `hash` in `src/FiniteStateMachines/SMC/utilities.ts` computes a SHA-256 digest. It is not part of this model, because the core does not use it for any behaviour modelled here.
- `commaList`: the Java emitter imports it from the utilities module, but that module does not define it. The emitter's enumerator lists are modelled as the elements joined by ",", which agrees with the analyzer's own `commaList`.
- Object identity: states are compared by reference in the source. Here they are compared by their index in the arena, and a state's name is unique in the arena.
- Cyclic super-state hierarchies are excluded by the acyclicity precondition. On them the source's `isSuperStateOf`, `checkTransitionsForState` and `addAllStatesInHierarchyLeafFirst` do not terminate.
- SemanticAnalysis.SemanticAnalyzer.Analyze: the header slots are not reset between calls, as in the source. The contract relates the result to the slots the call starts from, and does not restate the source's single-use intent.
- JavaScript template rendering: `undefined` and `null` in texts appear as "null" wherever the source can print them. Header fields the optimizer turns into "" are "" here too.
- Numbers: JavaScript numbers are integers here (salaries, tenure, bonuses and part prices) or reals (lawnmower weight and price). Floating-point rounding and number formatting beyond integer digits are not modelled.
- Optimized machine and transition objects: `Transition` and `SubTransition` are values built in order. The source builds them by pushing onto arrays of shared objects.
- NSCNodes.CompositeNode.Add: the child is stored as a tree value, not as a reference. A composite changed after it was added to another one is not reflected in the parent here; the source would see the change. The code modelled here never changes a node after adding it.
- OptimizedStateMachines.OptimizedStateMachine.ToString requires the header to be set, because reading it before `optimize` sets it throws in the source.
- TableDrivenTurnstile.Turnstile.PerformAction: the turnstile's own actions (the console messages of the turnstile class) are recorded as a log of (action, state) pairs. The turnstile class itself is not part of this model.
- Console output of observers: an observer's `update` is recorded as a log entry of the observer and the message it reads or receives. In the second variant `PullSubjectImpl` records the call, and the read is recorded by the `ObservedPullSubject`, for observers built on that subject as in the tests.
- PullObserversV1.ConcretePullSubject.NotifyObservers: a v1 observer reads the subject it was built with (src/Observer/v1PullObserver.ts:33-42), so one built on another subject would read that subject's message; the model has no observer objects and records every read, here and in Update and SetMessage, as a read of the notifying subject's message.
- PullObserversV1.ConcretePullSubject.SetMessage: "every observer reads the new message" holds only for observers built on this subject; for the others the same gap as NotifyObservers applies.
- PullObserversV1.ConcretePullSubject.Update: records a read of this subject's message, whereas the observer's own `update` reads its own subject's.
- PullObserversV2.ObservedPullSubject.NotifyObservers: an observer built on some other subject would read that subject's message; the model records every read as a read of this subject's message.
- SquintIterators.NumberIterator.Next: a finished generator keeps counting its position. No value depends on the position once the generator is done.
- SquintIterators: the squares generator draws from an integers generator that could be shared with other code. That aliasing is not modelled; the squares generator has its own position.
- SquintIterators.TakeFrom: a non-integer `n` is not modelled, because `n` is an `int`.
- PartExtensions: an extension is modelled as bound to the part whose dictionary holds it, as the factories arrange. An extension object moved into another part's dictionary is not modelled.
- ModelViewPresenter.Presenter.HandleInputChange: the `?? ""` fallback in the source cannot be taken after `setData`, so it is not modelled.
- NullObjects.EmployeeDatabase.CalculateTotalPayedAmount has no contract of its own. It is `TotalPay` of the list, and the `TotalPay` lemmas state its properties.
- The parser, lexer, syntax builder, the other generators and implementers, and the command-line driver are not part of this model. The analyzer starts from the parsed description (`fsm_syntax.dfy`).

## Findings

| source | as written | input that shows it | evidently intended | confidence | as-written member | corrected member |
|---|---|---|---|---|---|---|
| src/Monostate/MonostateDictionary.ts:1-22 | the dictionary is a plain JavaScript object, so `get` sees inherited members and `set` of "__proto__" is swallowed by the prototype setter | `get("toString")` on an empty dictionary returns the inherited function instead of `undefined`; `set("__proto__", "x")` then `get("__proto__")` does not return "x" | a string-to-string map: a key holds what was last stored under it and nothing else | not executed; high, from JavaScript's object semantics | MonostateDictionaries.InheritedKeyShowsThrough | MonostateDictionaries.GetAfterSet |
