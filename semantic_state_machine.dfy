/**
 * The semantic state machine the analyzer produces. States live in one
 * sequence in the insertion order of their names (the `states` map of the
 * source); a reference from one state to another (a super-state, a
 * transition's next state, the initial state) is an index into it.
 */
module SemanticStateMachines {
  import opened Wrappers
  import opened Strings
  import opened AnalysisErrors

  datatype SemanticTransition = SemanticTransition(event: Option<string>, nextState: Option<nat>, actions: seq<string>)

  datatype SemanticState = SemanticState(
    name: string,
    entryActions: seq<string>,
    exitActions: seq<string>,
    isAbstractState: bool,
    superStates: seq<nat>,
    transitions: seq<SemanticTransition>)

  /** `new SemanticState(name)`. */
  function NewState(name: string): (s: SemanticState)
    ensures s.name == name && !s.isAbstractState
    ensures s.entryActions == [] && s.exitActions == [] && s.superStates == [] && s.transitions == []
  {
    SemanticState(name, [], [], false, [], [])
  }

  /** Every reference points at a state of the sequence. */
  ghost predicate RefsInRange(states: seq<SemanticState>)
  {
    (forall i, k :: 0 <= i < |states| && 0 <= k < |states[i].superStates| ==> states[i].superStates[k] < |states|) &&
    (forall i, k :: 0 <= i < |states| && 0 <= k < |states[i].transitions| && states[i].transitions[k].nextState.Some? ==>
       states[i].transitions[k].nextState.value < |states|)
  }

  /** Names are map keys, so they are unique. */
  ghost predicate UniqueNames(states: seq<SemanticState>)
  {
    forall i, j :: 0 <= i < j < |states| ==> states[i].name != states[j].name
  }

  /**
   * The super-state graph is acyclic: every super-state edge strictly lowers
   * `rank`. Nothing in the source rejects a cycle; the recursive walks over the
   * hierarchy would not terminate on one, so it is a precondition here.
   */
  ghost predicate Ranked(states: seq<SemanticState>, rank: seq<nat>)
  {
    |rank| == |states| &&
    forall i, k :: 0 <= i < |states| && 0 <= k < |states[i].superStates| ==>
      states[i].superStates[k] < |states| && rank[states[i].superStates[k]] < rank[i]
  }

  /** `s.isSuperStateOf(p)`: `p` is `s` itself or, recursively, a super-state of one of its super-states. */
  function IsSuperStateOf(states: seq<SemanticState>, s: nat, p: nat, ghost rank: seq<nat>): (r: bool)
    requires Ranked(states, rank) && s < |states|
    ensures s == p ==> r
    decreases rank[s]
  {
    s == p ||
    exists k :: 0 <= k < |states[s].superStates| && IsSuperStateOf(states, states[s].superStates[k], p, rank)
  }

  /** A walk along super-state edges. */
  ghost predicate IsSuperPath(states: seq<SemanticState>, path: seq<nat>)
  {
    |path| > 0 &&
    (forall i :: 0 <= i < |path| ==> path[i] < |states|) &&
    (forall i :: 0 <= i < |path| - 1 ==> path[i + 1] in states[path[i]].superStates)
  }

  ghost predicate Reaches(states: seq<SemanticState>, s: nat, p: nat)
  {
    exists path :: IsSuperPath(states, path) && path[0] == s && path[|path| - 1] == p
  }

  lemma {:induction false} SuperStateOfHasPath(states: seq<SemanticState>, s: nat, p: nat, rank: seq<nat>)
    requires Ranked(states, rank) && s < |states|
    requires IsSuperStateOf(states, s, p, rank)
    ensures Reaches(states, s, p)
    decreases rank[s]
  {
    if s == p {
      assert IsSuperPath(states, [s]);
    } else {
      var k :| 0 <= k < |states[s].superStates| && IsSuperStateOf(states, states[s].superStates[k], p, rank);
      var sup := states[s].superStates[k];
      SuperStateOfHasPath(states, sup, p, rank);
      var path :| IsSuperPath(states, path) && path[0] == sup && path[|path| - 1] == p;
      var longer := [s] + path;
      forall i | 0 <= i < |longer| - 1 ensures longer[i + 1] in states[longer[i]].superStates {
        if i > 0 {
          assert longer[i] == path[i - 1] && longer[i + 1] == path[i];
        }
      }
      assert IsSuperPath(states, longer);
    }
  }

  lemma {:induction false} PathGivesSuperStateOf(states: seq<SemanticState>, path: seq<nat>, rank: seq<nat>)
    requires Ranked(states, rank) && IsSuperPath(states, path)
    ensures IsSuperStateOf(states, path[0], path[|path| - 1], rank)
    decreases |path|
  {
    if |path| > 1 {
      var rest := path[1..];
      assert IsSuperPath(states, rest) by {
        forall i | 0 <= i < |rest| - 1 ensures rest[i + 1] in states[rest[i]].superStates {
          assert rest[i] == path[i + 1] && rest[i + 1] == path[i + 2];
        }
      }
      PathGivesSuperStateOf(states, rest, rank);
      var k :| 0 <= k < |states[path[0]].superStates| && states[path[0]].superStates[k] == path[1];
      assert IsSuperStateOf(states, states[path[0]].superStates[k], path[|path| - 1], rank);
    }
  }

  /** `isSuperStateOf` is reachability along zero or more super-state edges. */
  lemma IsSuperStateOfIsReachability(states: seq<SemanticState>, s: nat, p: nat, rank: seq<nat>)
    requires Ranked(states, rank) && s < |states|
    ensures IsSuperStateOf(states, s, p, rank) <==> Reaches(states, s, p)
  {
    if IsSuperStateOf(states, s, p, rank) {
      SuperStateOfHasPath(states, s, p, rank);
    }
    if Reaches(states, s, p) {
      var path :| IsSuperPath(states, path) && path[0] == s && path[|path| - 1] == p;
      PathGivesSuperStateOf(states, path, rank);
    }
  }

  /** `isSuperStateOf` is transitive. */
  lemma SuperStateOfTransitive(states: seq<SemanticState>, a: nat, b: nat, c: nat, rank: seq<nat>)
    requires Ranked(states, rank) && a < |states| && b < |states|
    requires IsSuperStateOf(states, a, b, rank) && IsSuperStateOf(states, b, c, rank)
    ensures IsSuperStateOf(states, a, c, rank)
  {
    IsSuperStateOfIsReachability(states, a, b, rank);
    IsSuperStateOfIsReachability(states, b, c, rank);
    var p1 :| IsSuperPath(states, p1) && p1[0] == a && p1[|p1| - 1] == b;
    var p2 :| IsSuperPath(states, p2) && p2[0] == b && p2[|p2| - 1] == c;
    var joined := p1 + p2[1..];
    assert IsSuperPath(states, joined) by {
      forall i | 0 <= i < |joined| - 1 ensures joined[i + 1] in states[joined[i]].superStates {
        if i + 1 < |p1| {
          assert joined[i] == p1[i] && joined[i + 1] == p1[i + 1];
        } else {
          assert joined[i] == p2[i + 1 - |p1|] && joined[i + 1] == p2[i + 2 - |p1|];
        }
      }
    }
    IsSuperStateOfIsReachability(states, a, c, rank);
  }

  // ---------------------------------------------------------------------
  // Rendering

  /** The space-separated parts of a state's header line, in order. */
  function AdornmentParts(states: seq<SemanticState>, i: nat): (parts: seq<string>)
    requires RefsInRange(states) && i < |states|
    ensures |parts| == 1 + |states[i].superStates| + |states[i].entryActions| + |states[i].exitActions|
    ensures parts[0] == if states[i].isAbstractState then "(" + states[i].name + ")" else states[i].name
    ensures forall k :: 0 <= k < |states[i].superStates| ==>
      parts[1 + k] == ":" + states[states[i].superStates[k]].name
    ensures forall k :: 0 <= k < |states[i].entryActions| ==>
      parts[1 + |states[i].superStates| + k] == "<" + states[i].entryActions[k]
    ensures forall k :: 0 <= k < |states[i].exitActions| ==>
      parts[1 + |states[i].superStates| + |states[i].entryActions| + k] == ">" + states[i].exitActions[k]
  {
    var s := states[i];
    [if s.isAbstractState then "(" + s.name + ")" else s.name] +
    seq(|s.superStates|, k requires 0 <= k < |s.superStates| => ":" + states[s.superStates[k]].name) +
    seq(|s.entryActions|, k requires 0 <= k < |s.entryActions| => "<" + s.entryActions[k]) +
    seq(|s.exitActions|, k requires 0 <= k < |s.exitActions| => ">" + s.exitActions[k])
  }

  /**
   * `makeStateNameWithAdornments`: the (parenthesised when abstract) name
   * alone, or followed by a space and the adornments when it has any.
   */
  function StateNameWithAdornments(states: seq<SemanticState>, i: nat): (r: string)
    requires RefsInRange(states) && i < |states|
    ensures var s := states[i];
      var name := if s.isAbstractState then "(" + s.name + ")" else s.name;
      |r| >= |name| && r[..|name|] == name &&
      (s.superStates == [] && s.entryActions == [] && s.exitActions == [] ==> r == name) &&
      (s.superStates != [] || s.entryActions != [] || s.exitActions != [] ==> |r| > |name| && r[|name|] == ' ')
  {
    JoinStart(AdornmentParts(states, i), " ");
    Join(AdornmentParts(states, i), " ")
  }

  /** `makeTransitionString`: "    event next {a1 a2}\n". */
  function TransitionString(states: seq<SemanticState>, t: SemanticTransition): (r: string)
    requires t.nextState.Some? ==> t.nextState.value < |states|
    ensures |r| >= 8 && r[..4] == "    " && r[|r| - 2..] == "}\n"
  {
    "    " + NullableText(t.event) + " " +
    (if t.nextState.None? then "null" else states[t.nextState.value].name) +
    " {" + Join(t.actions, " ") + "}\n"
  }

  /** The transition lines of a state, in order. */
  function TransitionStrings(states: seq<SemanticState>, ts: seq<SemanticTransition>): (r: string)
    requires forall k :: 0 <= k < |ts| && ts[k].nextState.Some? ==> ts[k].nextState.value < |states|
    ensures r == "" <==> ts == []
    ensures ts != [] ==> |r| >= 8 && r[|r| - 2..] == "}\n"
  {
    if ts == [] then ""
    else
      var init := TransitionStrings(states, ts[..|ts| - 1]);
      var line := TransitionString(states, ts[|ts| - 1]);
      SuffixKept(init, line, 2);
      init + line
  }

  /** The lines come in transition order: the text opens with the first transition's line. */
  lemma {:induction false} TransitionStringsStart(states: seq<SemanticState>, ts: seq<SemanticTransition>)
    requires ts != []
    requires forall k :: 0 <= k < |ts| && ts[k].nextState.Some? ==> ts[k].nextState.value < |states|
    ensures var first := TransitionString(states, ts[0]);
      |TransitionStrings(states, ts)| >= |first| && TransitionStrings(states, ts)[..|first|] == first
  {
    var first := TransitionString(states, ts[0]);
    var init := ts[..|ts| - 1];
    var last := TransitionString(states, ts[|ts| - 1]);
    assert forall k :: 0 <= k < |init| ==> init[k] == ts[k];
    assert TransitionStrings(states, ts) == TransitionStrings(states, init) + last;
    if |ts| == 1 {
      assert TransitionStrings(states, init) == "";
    } else {
      assert init[0] == ts[0];
      TransitionStringsStart(states, init);
      PrefixKept(TransitionStrings(states, init), last, |first|);
    }
  }

  /** `SemanticState.toString`. */
  function StateString(states: seq<SemanticState>, i: nat): (r: string)
    requires RefsInRange(states) && i < |states|
    ensures var name := StateNameWithAdornments(states, i);
      |r| >= 3 + |name| + 7 && r[..3] == "\n  " && r[3..3 + |name|] == name &&
      r[3 + |name|..3 + |name| + 3] == " {\n" && r[|r| - 4..] == "  }\n"
  {
    "\n  " + StateNameWithAdornments(states, i) + " {\n" + TransitionStrings(states, states[i].transitions) + "  }\n"
  }

  function StateStrings(states: seq<SemanticState>, n: nat): string
    requires RefsInRange(states) && n <= |states|
  {
    if n == 0 then "" else StateStrings(states, n - 1) + StateString(states, n - 1)
  }

  /** The header line splits back into its parts when no part contains a space. */
  lemma AdornmentsSplit(states: seq<SemanticState>, i: nat)
    requires RefsInRange(states) && i < |states|
    requires forall k :: 0 <= k < |AdornmentParts(states, i)| ==> ' ' !in AdornmentParts(states, i)[k]
    ensures Split(StateNameWithAdornments(states, i), ' ') == AdornmentParts(states, i)
  {
    SplitJoin(AdornmentParts(states, i), ' ');
  }

  /** A transition line is the event, the next state and the braced actions; the actions split back. */
  lemma TransitionStringShape(states: seq<SemanticState>, t: SemanticTransition)
    requires t.nextState.Some? ==> t.nextState.value < |states|
    requires |t.actions| > 0 && forall k :: 0 <= k < |t.actions| ==> ' ' !in t.actions[k]
    ensures var line := TransitionString(states, t);
      var head := "    " + NullableText(t.event) + " " + (if t.nextState.None? then "null" else states[t.nextState.value].name) + " {";
      line[..|head|] == head && line[|line| - 2..] == "}\n" &&
      Split(line[|head|..|line| - 2], ' ') == t.actions
  {
    var head := "    " + NullableText(t.event) + " " + (if t.nextState.None? then "null" else states[t.nextState.value].name) + " {";
    var line := TransitionString(states, t);
    assert line == head + Join(t.actions, " ") + "}\n";
    assert line[|head|..|line| - 2] == Join(t.actions, " ");
    SplitJoin(t.actions, ' ');
  }

  /** Every field of a `SemanticStateMachine` at one moment. */
  datatype MachineValue = MachineValue(
    errors: seq<AnalysisError>, warnings: seq<AnalysisError>, states: seq<SemanticState>,
    events: seq<string>, actions: seq<string>, initialState: Option<nat>,
    actionClass: Option<string>, fsmName: Option<string>)

  class SemanticStateMachine {
    var errors: seq<AnalysisError>
    var warnings: seq<AnalysisError>
    var states: seq<SemanticState>
    var events: seq<string>
    var actions: seq<string>
    var initialState: Option<nat>
    var actionClass: Option<string>
    var fsmName: Option<string>

    constructor()
      ensures errors == [] && warnings == [] && states == [] && events == [] && actions == []
      ensures initialState.None? && actionClass.None? && fsmName.None?
    {
      errors := [];
      warnings := [];
      states := [];
      events := [];
      actions := [];
      initialState := None;
      actionClass := None;
      fsmName := None;
    }

    function Value(): MachineValue
      reads this
    {
      MachineValue(errors, warnings, states, events, actions, initialState, actionClass, fsmName)
    }

    /** The initial state and every reference between states point into `states`. */
    ghost predicate Valid()
      reads this
    {
      RefsInRange(states) && (initialState.Some? ==> initialState.value < |states|)
    }

    method AddError(e: AnalysisError)
      modifies this
      ensures errors == old(errors) + [e]
      ensures warnings == old(warnings) && states == old(states) && events == old(events) && actions == old(actions)
      ensures initialState == old(initialState) && actionClass == old(actionClass) && fsmName == old(fsmName)
    {
      errors := errors + [e];
    }

    /** `statesToString`: every state's text, in insertion order, inside "{" and "}\n". */
    function StatesToString(): (r: string)
      reads this
      requires Valid()
      ensures |r| >= 3 && r[..1] == "{" && r[|r| - 2..] == "}\n"
    {
      "{" + StateStrings(states, |states|) + "}\n"
    }

    /** `toString`: the Actions, FSM and Initial lines, then the states, joined by newlines. */
    function ToString(): (r: string)
      reads this
      requires Valid()
      ensures |r| >= 9 + |StatesToString()| && r[..9] == "Actions: "
      ensures r[|r| - |StatesToString()|..] == StatesToString()
    {
      var a := "Actions: " + NullableText(actionClass);
      var f := "FSM: " + NullableText(fsmName);
      var i := "Initial: " + (if initialState.Some? then states[initialState.value].name else "null");
      var st := StatesToString();
      JoinFour(a, f, i, st, "\n");
      var p1 := a + "\n";
      var p2 := p1 + f;
      var p3 := p2 + "\n";
      var p4 := p3 + i;
      var pre := p4 + "\n";
      PrefixKept("Actions: ", NullableText(actionClass), 9);
      PrefixKept(a, "\n", 9);
      PrefixKept(p1, f, 9);
      PrefixKept(p2, "\n", 9);
      PrefixKept(p3, i, 9);
      PrefixKept(p4, "\n", 9);
      PrefixKept(pre, st, 9);
      AppendParts(pre, st);
      Join([a, f, i, st], "\n")
    }

    /** The text starts with the three header lines, in that order. */
    lemma ToStringLines()
      requires Valid()
      ensures var a := "Actions: " + NullableText(actionClass);
        var f := "FSM: " + NullableText(fsmName);
        var i := "Initial: " + (if initialState.Some? then states[initialState.value].name else "null");
        ToString() == a + "\n" + f + "\n" + i + "\n" + StatesToString()
    {
      JoinFour("Actions: " + NullableText(actionClass), "FSM: " + NullableText(fsmName),
        "Initial: " + (if initialState.Some? then states[initialState.value].name else "null"), StatesToString(), "\n");
    }
  }
}
