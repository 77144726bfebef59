/**
 * The optimizer: flattens the super-state hierarchy of a semantic state
 * machine into one table of sub-transitions per concrete state. The functions
 * here are the specification; the classes `Optimizer`, `StateOptimizer` and
 * `SubTransitionOptimizer` follow the source step by step and are proved
 * against them.
 */
module Optimizers {
  import opened Wrappers
  import opened OrderedSets
  import opened SemanticStateMachines
  import opened OptimizedStateMachines
  import opened Strings

  /** What the optimizer needs of its input: references in range and an acyclic hierarchy. */
  ghost predicate Optimizable(states: seq<SemanticState>, rank: seq<nat>)
  {
    RefsInRange(states) && Ranked(states, rank)
  }

  // ---------------------------------------------------------------------
  // The hierarchy walk

  /** `addAllStatesInHierarchyLeafFirst(s, h)`: `h` with the missing ancestors of `s`, then `s`. */
  function LeafFirst(states: seq<SemanticState>, s: nat, h: seq<nat>, ghost rank: seq<nat>): (r: seq<nat>)
    requires Ranked(states, rank) && s < |states|
    ensures InRange(states, h) ==> InRange(states, r)
    decreases rank[s], 1, 0
  {
    SupersLeafFirst(states, s, |states[s].superStates|, h, rank) + [s]
  }

  /** The loop of `addAllStatesInHierarchyLeafFirst` over the first `n` super-states of `s`. */
  function SupersLeafFirst(states: seq<SemanticState>, s: nat, n: nat, h: seq<nat>, ghost rank: seq<nat>): (r: seq<nat>)
    requires Ranked(states, rank) && s < |states| && n <= |states[s].superStates|
    ensures InRange(states, h) ==> InRange(states, r)
    decreases rank[s], 0, n
  {
    if n == 0 then h
    else
      var h1 := SupersLeafFirst(states, s, n - 1, h, rank);
      var p := states[s].superStates[n - 1];
      if p in h1 then h1 else LeafFirst(states, p, h1, rank)
  }

  /** `makeRootFirstHierarchyOfStates`: the hierarchy of `s`, reversed, so `s` comes first. */
  function RootFirst(states: seq<SemanticState>, s: nat, ghost rank: seq<nat>): (r: seq<nat>)
    requires Ranked(states, rank) && s < |states|
    ensures InRange(states, r)
  {
    assert InRange(states, []);
    Reversed(LeafFirst(states, s, [], rank))
  }

  /** Every element names a state. */
  ghost predicate InRange(states: seq<SemanticState>, h: seq<nat>)
  {
    forall j :: 0 <= j < |h| ==> h[j] < |states|
  }

  /** Every state of `h` is preceded by all of its super-states. */
  ghost predicate SupersFirst(states: seq<SemanticState>, h: seq<nat>)
    requires InRange(states, h)
  {
    forall j, k :: 0 <= j < |h| && 0 <= k < |states[h[j]].superStates| ==> states[h[j]].superStates[k] in h[..j]
  }

  // ---------------------------------------------------------------------
  // Actions of a sub-transition

  function ExitsOf(states: seq<SemanticState>, hs: seq<nat>): seq<string>
    requires InRange(states, hs)
  {
    if hs == [] then [] else ExitsOf(states, hs[..|hs| - 1]) + states[hs[|hs| - 1]].exitActions
  }

  function EntriesOf(states: seq<SemanticState>, hs: seq<nat>): seq<string>
    requires InRange(states, hs)
  {
    if hs == [] then [] else EntriesOf(states, hs[..|hs| - 1]) + states[hs[|hs| - 1]].entryActions
  }

  /** The parts of an optimized sub-transition, one by one. */
  lemma OptimizeSubParts(states: seq<SemanticState>, cur: nat, t: SemanticTransition, rank: seq<nat>)
    requires Optimizable(states, rank) && cur < |states|
    requires t.nextState.Some? ==> t.nextState.value < |states|
    ensures var st := OptimizeSub(states, cur, t, rank);
      st.event == t.event.GetOr("") &&
      st.nextState == (if t.nextState.Some? then states[t.nextState.value].name else "") &&
      st.actions == ExitsOf(states, RootFirst(states, cur, rank)) +
        (if t.nextState.Some? then EntriesOf(states, LeafFirst(states, t.nextState.value, [], rank)) else []) + t.actions
  {
  }

  /** Adding the exit actions of one more state of `hs` extends the exits of the prefix. */
  lemma ExitsStep(states: seq<SemanticState>, pre: seq<string>, hs: seq<nat>, k: nat)
    requires InRange(states, hs) && k < |hs|
    ensures InRange(states, hs[..k]) && InRange(states, hs[..k + 1])
    ensures pre + ExitsOf(states, hs[..k]) + states[hs[k]].exitActions == pre + ExitsOf(states, hs[..k + 1])
  {
    assert hs[..k + 1][..k] == hs[..k];
  }

  /** Adding the entry actions of one more state of `hs` extends the entries of the prefix. */
  lemma EntriesStep(states: seq<SemanticState>, pre: seq<string>, hs: seq<nat>, k: nat)
    requires InRange(states, hs) && k < |hs|
    ensures InRange(states, hs[..k]) && InRange(states, hs[..k + 1])
    ensures pre + EntriesOf(states, hs[..k]) + states[hs[k]].entryActions == pre + EntriesOf(states, hs[..k + 1])
  {
    assert hs[..k + 1][..k] == hs[..k];
  }

  /** `SubTransitionOptimizer.optimize`: exits leaf to root, entries root to leaf, then the transition's own actions. */
  function OptimizeSub(states: seq<SemanticState>, cur: nat, t: SemanticTransition, ghost rank: seq<nat>): (st: SubTransition)
    requires Optimizable(states, rank) && cur < |states|
    requires t.nextState.Some? ==> t.nextState.value < |states|
    ensures st.event == t.event.GetOr("")
    ensures st.nextState == (if t.nextState.Some? then states[t.nextState.value].name else "")
    ensures states[cur].exitActions <= st.actions
    ensures |t.actions| <= |st.actions| && st.actions[|st.actions| - |t.actions|..] == t.actions
  {
    assert InRange(states, []);
    ExitOrder(states, cur, rank);
    var exits := ExitsOf(states, RootFirst(states, cur, rank));
    var entries := if t.nextState.Some? then EntriesOf(states, LeafFirst(states, t.nextState.value, [], rank)) else [];
    SubTransition(t.event.GetOr(""), if t.nextState.Some? then states[t.nextState.value].name else "",
      exits + entries + t.actions)
  }

  // ---------------------------------------------------------------------
  // The table of one state

  /** `eventExistsAndHasNotBeenOverridden`, applied by `filter` before any of the survivors is added. */
  function Passing(trs: seq<SemanticTransition>, seen: set<string>): (r: seq<SemanticTransition>)
    ensures forall i :: 0 <= i < |r| ==> r[i] in trs && r[i].event.Some? && r[i].event.value !in seen
  {
    if trs == [] then []
    else
      var t := trs[|trs| - 1];
      Passing(trs[..|trs| - 1], seen) + (if t.event.Some? && t.event.value !in seen then [t] else [])
  }

  /** The events of a list of transitions that have one. */
  function EventSet(trs: seq<SemanticTransition>): set<string>
  {
    set t | t in trs && t.event.Some? :: t.event.value
  }

  function SubsFor(states: seq<SemanticState>, cur: nat, trs: seq<SemanticTransition>, ghost rank: seq<nat>): (r: seq<SubTransition>)
    requires Optimizable(states, rank) && cur < |states|
    requires forall t :: t in trs && t.nextState.Some? ==> t.nextState.value < |states|
    ensures |r| == |trs| && forall i :: 0 <= i < |trs| ==> r[i] == OptimizeSub(states, cur, trs[i], rank)
  {
    seq(|trs|, i requires 0 <= i < |trs| => OptimizeSub(states, cur, trs[i], rank))
  }

  /** `eventsForThisState` after `addStateTransitions` for each state of the hierarchy `hs`. */
  function Seen(states: seq<SemanticState>, hs: seq<nat>): set<string>
    requires InRange(states, hs)
  {
    if hs == [] then {}
    else
      var prev := Seen(states, hs[..|hs| - 1]);
      prev + EventSet(Passing(states[hs[|hs| - 1]].transitions, prev))
  }

  /** The sub-transitions `addSubTransitions` pushes for the hierarchy `hs` of `cur`. */
  function Subs(states: seq<SemanticState>, cur: nat, hs: seq<nat>, ghost rank: seq<nat>): seq<SubTransition>
    requires Optimizable(states, rank) && cur < |states| && InRange(states, hs)
  {
    if hs == [] then []
    else
      var init := hs[..|hs| - 1];
      Subs(states, cur, init, rank) + SubsFor(states, cur, Passing(states[hs[|hs| - 1]].transitions, Seen(states, init)), rank)
  }

  /** `StateOptimizer.addTransitionsForState`'s transition. */
  function TransitionFor(states: seq<SemanticState>, cur: nat, ghost rank: seq<nat>): (r: Transition)
    requires Optimizable(states, rank) && cur < |states|
    ensures r.currentState == states[cur].name
    ensures EventsInHierarchy(states, cur, r.subTransitions, rank)
  {
    SubEventsInHierarchy(states, cur, rank);
    Transition(states[cur].name, Subs(states, cur, RootFirst(states, cur, rank), rank))
  }

  // ---------------------------------------------------------------------
  // The whole machine

  /** `addStates`: the names of the non-abstract states, in order. */
  function ConcreteNames(states: seq<SemanticState>): seq<string>
  {
    if states == [] then []
    else
      var s := states[|states| - 1];
      ConcreteNames(states[..|states| - 1]) + (if s.isAbstractState then [] else [s.name])
  }

  /** `addTransitions` over the first `n` states. */
  function ConcreteTransitions(states: seq<SemanticState>, n: nat, ghost rank: seq<nat>): seq<Transition>
    requires Optimizable(states, rank) && n <= |states|
  {
    if n == 0 then []
    else ConcreteTransitions(states, n - 1, rank) + (if states[n - 1].isAbstractState then [] else [TransitionFor(states, n - 1, rank)])
  }

  /** `addHeader`: null fields become "". */
  function HeaderOf(m: MachineValue): Header
    requires m.initialState.Some? ==> m.initialState.value < |m.states|
  {
    Header(m.fsmName.GetOr(""), if m.initialState.Some? then m.states[m.initialState.value].name else "", m.actionClass.GetOr(""))
  }

  /** What `optimize` returns for a semantic machine: one transition per listed state, in the same order. */
  ghost function Optimized(m: MachineValue, rank: seq<nat>): (r: OptimizedValue)
    requires Optimizable(m.states, rank) && (m.initialState.Some? ==> m.initialState.value < |m.states|)
    ensures r.header.Some? && |r.transitions| == |r.states|
    ensures forall i :: 0 <= i < |r.states| ==> r.transitions[i].currentState == r.states[i]
  {
    ConcreteAligned(m.states, |m.states|, rank);
    assert m.states[..|m.states|] == m.states;
    OptimizedValue(Some(HeaderOf(m)), ConcreteNames(m.states), m.events, m.actions,
      ConcreteTransitions(m.states, |m.states|, rank))
  }

  // ---------------------------------------------------------------------
  // Properties of the hierarchy walk

  /** An ancestor never has a higher rank. */
  lemma {:induction false} AncestorRank(states: seq<SemanticState>, s: nat, x: nat, rank: seq<nat>)
    requires Ranked(states, rank) && s < |states| && IsSuperStateOf(states, s, x, rank)
    ensures x < |states| && rank[x] <= rank[s]
    decreases rank[s]
  {
    if s != x {
      var k :| 0 <= k < |states[s].superStates| && IsSuperStateOf(states, states[s].superStates[k], x, rank);
      AncestorRank(states, states[s].superStates[k], x, rank);
    }
  }

  /** The walk from `s` keeps `h` as a prefix, adds only ancestors of `s` and ends with `s`. */
  lemma {:induction false} LeafFirstGrows(states: seq<SemanticState>, s: nat, h: seq<nat>, rank: seq<nat>)
    requires Ranked(states, rank) && s < |states|
    ensures var r := LeafFirst(states, s, h, rank);
      h <= r && r[|r| - 1] == s &&
      forall i :: |h| <= i < |r| ==> IsSuperStateOf(states, s, r[i], rank)
    decreases rank[s], 1, 0
  {
    var n := |states[s].superStates|;
    SupersLeafFirstGrows(states, s, n, h, rank);
    var q := SupersLeafFirst(states, s, n, h, rank);
    var r := q + [s];
    assert r[..|q|] == q;
  }

  /**
   * `r` extends `h` by ancestors of the first `n` super-states of `s` only,
   * and holds each of those super-states.
   */
  ghost predicate AddedAncestors(states: seq<SemanticState>, s: nat, n: nat, h: seq<nat>, r: seq<nat>, rank: seq<nat>)
    requires Ranked(states, rank) && s < |states| && n <= |states[s].superStates|
  {
    h <= r &&
    (forall i :: |h| <= i < |r| ==> exists k :: 0 <= k < n && IsSuperStateOf(states, states[s].superStates[k], r[i], rank)) &&
    (forall k :: 0 <= k < n ==> states[s].superStates[k] in r)
  }

  /** The loop over the first `n` super-states adds each of them, and only their ancestors. */
  lemma {:induction false} SupersLeafFirstGrows(states: seq<SemanticState>, s: nat, n: nat, h: seq<nat>, rank: seq<nat>)
    requires Ranked(states, rank) && s < |states| && n <= |states[s].superStates|
    ensures AddedAncestors(states, s, n, h, SupersLeafFirst(states, s, n, h, rank), rank)
    decreases rank[s], 0, n
  {
    if n > 0 {
      SupersLeafFirstGrows(states, s, n - 1, h, rank);
      var h1 := SupersLeafFirst(states, s, n - 1, h, rank);
      var p := states[s].superStates[n - 1];
      if p !in h1 {
        LeafFirstGrows(states, p, h1, rank);
        SupersStep(states, s, n, h, h1, LeafFirst(states, p, h1, rank), rank);
      } else {
        SupersSkip(states, s, n, h, h1, rank);
      }
    }
  }

  /** A super-state already in the list adds nothing. */
  lemma SupersSkip(states: seq<SemanticState>, s: nat, n: nat, h: seq<nat>, h1: seq<nat>, rank: seq<nat>)
    requires Ranked(states, rank) && s < |states| && 0 < n <= |states[s].superStates|
    requires AddedAncestors(states, s, n - 1, h, h1, rank) && states[s].superStates[n - 1] in h1
    ensures AddedAncestors(states, s, n, h, h1, rank)
  {
    forall i | |h| <= i < |h1|
      ensures exists k :: 0 <= k < n && IsSuperStateOf(states, states[s].superStates[k], h1[i], rank)
    {
      var k :| 0 <= k < n - 1 && IsSuperStateOf(states, states[s].superStates[k], h1[i], rank);
    }
  }

  /**
   * The walk from `s` keeps a list without duplicates in which every state
   * follows its super-states that way, provided `s` was not in it yet.
   */
  lemma {:induction false} LeafFirstKeeps(states: seq<SemanticState>, s: nat, h: seq<nat>, rank: seq<nat>)
    requires Ranked(states, rank) && s < |states|
    ensures var r := LeafFirst(states, s, h, rank);
      (NoDuplicates(h) && s !in h ==> NoDuplicates(r)) &&
      (InRange(states, h) && SupersFirst(states, h) ==> SupersFirst(states, r))
    decreases rank[s], 1, 0
  {
    var n := |states[s].superStates|;
    SupersLeafFirstKeeps(states, s, n, h, rank);
    SupersLeafFirstGrows(states, s, n, h, rank);
    var q := SupersLeafFirst(states, s, n, h, rank);
    var r := q + [s];
    assert r[..|q|] == q;
    forall i | |h| <= i < |q| ensures s != q[i] {
      var k :| 0 <= k < n && IsSuperStateOf(states, states[s].superStates[k], q[i], rank);
      AncestorRank(states, states[s].superStates[k], q[i], rank);
    }
    if InRange(states, h) && SupersFirst(states, h) {
      forall j, k | 0 <= j < |r| && 0 <= k < |states[r[j]].superStates|
        ensures states[r[j]].superStates[k] in r[..j]
      {
        if j < |q| {
          assert r[..j] == q[..j];
        } else {
          assert r[..j] == q;
        }
      }
    }
  }

  /** The loop over the super-states keeps the list without duplicates and super-states first. */
  lemma {:induction false} SupersLeafFirstKeeps(states: seq<SemanticState>, s: nat, n: nat, h: seq<nat>, rank: seq<nat>)
    requires Ranked(states, rank) && s < |states| && n <= |states[s].superStates|
    ensures var r := SupersLeafFirst(states, s, n, h, rank);
      (NoDuplicates(h) ==> NoDuplicates(r)) &&
      (InRange(states, h) && SupersFirst(states, h) ==> SupersFirst(states, r))
    decreases rank[s], 0, n
  {
    if n > 0 {
      SupersLeafFirstKeeps(states, s, n - 1, h, rank);
      var h1 := SupersLeafFirst(states, s, n - 1, h, rank);
      var p := states[s].superStates[n - 1];
      if p !in h1 {
        LeafFirstKeeps(states, p, h1, rank);
      }
    }
  }

  /**
   * One more super-state's hierarchy `r` after the first `n - 1` super-states' `h1`: every added
   * state is an ancestor of one of the first `n` super-states, and each of them is in.
   */
  lemma SupersStep(states: seq<SemanticState>, s: nat, n: nat, h: seq<nat>, h1: seq<nat>, r: seq<nat>, rank: seq<nat>)
    requires Ranked(states, rank) && s < |states| && 0 < n <= |states[s].superStates|
    requires AddedAncestors(states, s, n - 1, h, h1, rank)
    requires h1 <= r && |r| > 0 && r[|r| - 1] == states[s].superStates[n - 1]
    requires forall i :: |h1| <= i < |r| ==> IsSuperStateOf(states, states[s].superStates[n - 1], r[i], rank)
    ensures AddedAncestors(states, s, n, h, r, rank)
  {
    forall i | |h| <= i < |r|
      ensures exists k :: 0 <= k < n && IsSuperStateOf(states, states[s].superStates[k], r[i], rank)
    {
      if i < |h1| {
        assert r[i] == h1[i];
        var k :| 0 <= k < n - 1 && IsSuperStateOf(states, states[s].superStates[k], h1[i], rank);
      } else {
        assert IsSuperStateOf(states, states[s].superStates[n - 1], r[i], rank);
      }
    }
    forall k | 0 <= k < n ensures states[s].superStates[k] in r {
      if k < n - 1 {
        var w :| 0 <= w < |h1| && h1[w] == states[s].superStates[k];
        assert r[w] == h1[w];
      }
    }
  }

  /** In a list where every state follows its super-states, the ancestors of a member are members. */
  lemma {:induction false} SupersFirstClosed(states: seq<SemanticState>, h: seq<nat>, x: nat, y: nat, rank: seq<nat>)
    requires Ranked(states, rank) && InRange(states, h) && SupersFirst(states, h)
    requires x in h && IsSuperStateOf(states, x, y, rank)
    ensures y in h
    decreases rank[x]
  {
    if x != y {
      var k :| 0 <= k < |states[x].superStates| && IsSuperStateOf(states, states[x].superStates[k], y, rank);
      var j :| 0 <= j < |h| && h[j] == x;
      assert states[h[j]].superStates[k] in h[..j];
      SupersFirstClosed(states, h, states[x].superStates[k], y, rank);
    }
  }

  /**
   * From an empty list, the walk lists every ancestor of `s` (itself
   * included) exactly once, each after its super-states, and `s` last.
   */
  lemma LeafFirstFacts(states: seq<SemanticState>, s: nat, rank: seq<nat>)
    requires Ranked(states, rank) && s < |states|
    ensures var r := LeafFirst(states, s, [], rank);
      |r| > 0 && r[|r| - 1] == s && NoDuplicates(r) && InRange(states, r) && SupersFirst(states, r) &&
      forall x :: x in r <==> IsSuperStateOf(states, s, x, rank)
  {
    LeafFirstGrows(states, s, [], rank);
    LeafFirstKeeps(states, s, [], rank);
    var r := LeafFirst(states, s, [], rank);
    forall x ensures x in r <==> IsSuperStateOf(states, s, x, rank) {
      if IsSuperStateOf(states, s, x, rank) {
        SupersFirstClosed(states, r, s, x, rank);
      }
    }
  }

  /** The root-first hierarchy starts with the state itself. */
  lemma RootFirstStarts(states: seq<SemanticState>, s: nat, rank: seq<nat>)
    requires Ranked(states, rank) && s < |states|
    ensures var r := RootFirst(states, s, rank);
      |r| > 0 && r[0] == s && InRange(states, r) && NoDuplicates(r) &&
      forall x :: x in r <==> IsSuperStateOf(states, s, x, rank)
  {
    LeafFirstFacts(states, s, rank);
    var l := LeafFirst(states, s, [], rank);
    var r := RootFirst(states, s, rank);
    forall x ensures x in r <==> x in l {
      if x in l {
        var i :| 0 <= i < |l| && l[i] == x;
        assert r[|l| - 1 - i] == x;
      }
    }
    forall i, j | 0 <= i < j < |r| ensures r[i] != r[j] {
      assert r[i] == l[|l| - 1 - i] && r[j] == l[|l| - 1 - j];
    }
  }

  // ---------------------------------------------------------------------
  // Properties of a state's table

  /** State `h` has a transition on `e`. */
  ghost predicate Defines(states: seq<SemanticState>, h: nat, e: string)
    requires h < |states|
  {
    exists k :: 0 <= k < |states[h].transitions| && states[h].transitions[k].event == Some(e)
  }

  /** A state's transitions have pairwise different events. */
  ghost predicate DistinctEvents(trs: seq<SemanticTransition>)
  {
    forall a, b :: 0 <= a < b < |trs| && trs[a].event.Some? ==> trs[a].event != trs[b].event
  }

  lemma {:induction false} PassingKeeps(trs: seq<SemanticTransition>, seen: set<string>, t: SemanticTransition)
    requires t in trs && t.event.Some? && t.event.value !in seen
    ensures t in Passing(trs, seen)
  {
    var n := |trs| - 1;
    if trs[n] != t {
      assert t in trs[..n] by {
        var i :| 0 <= i < |trs| && trs[i] == t;
        assert trs[..n][i] == t;
      }
      PassingKeeps(trs[..n], seen, t);
    }
  }

  lemma {:induction false} PassingDistinct(trs: seq<SemanticTransition>, seen: set<string>)
    requires DistinctEvents(trs)
    ensures DistinctEvents(Passing(trs, seen))
  {
    if trs != [] {
      var n := |trs| - 1;
      var init := trs[..n];
      DistinctEventsPrefix(trs, n);
      PassingDistinct(init, seen);
      var p := Passing(init, seen);
      PassingBeforeLast(trs, seen);
      var last := if trs[n].event.Some? && trs[n].event.value !in seen then [trs[n]] else [];
      assert Passing(trs, seen) == p + last;
      PassingAppendDistinct(p, last);
    }
  }

  lemma DistinctEventsPrefix(trs: seq<SemanticTransition>, n: nat)
    requires DistinctEvents(trs) && n <= |trs|
    ensures DistinctEvents(trs[..n])
  {
    var init := trs[..n];
    forall a, b | 0 <= a < b < |init| && init[a].event.Some? ensures init[a].event != init[b].event {
      assert init[a] == trs[a] && init[b] == trs[b];
    }
  }

  /** No transition passed before the last one has the last one's event. */
  lemma PassingBeforeLast(trs: seq<SemanticTransition>, seen: set<string>)
    requires DistinctEvents(trs) && trs != []
    ensures var p := Passing(trs[..|trs| - 1], seen);
      forall i :: 0 <= i < |p| && p[i].event.Some? ==> p[i].event != trs[|trs| - 1].event
  {
    var n := |trs| - 1;
    var init := trs[..n];
    var p := Passing(init, seen);
    forall i | 0 <= i < |p| && p[i].event.Some? ensures p[i].event != trs[n].event {
      var a :| 0 <= a < |init| && init[a] == p[i];
      assert trs[a] == p[i];
    }
  }

  /** Appending at most one transition whose event none of `p` has keeps the events distinct. */
  lemma PassingAppendDistinct(p: seq<SemanticTransition>, last: seq<SemanticTransition>)
    requires DistinctEvents(p) && |last| <= 1
    requires forall i :: 0 <= i < |p| && p[i].event.Some? && last != [] ==> p[i].event != last[0].event
    ensures DistinctEvents(p + last)
  {
    var all := p + last;
    forall a, b | 0 <= a < b < |all| && all[a].event.Some? ensures all[a].event != all[b].event {
      assert all[a] == p[a];
      if b < |p| {
        assert all[b] == p[b];
      } else {
        assert all[b] == last[0];
      }
    }
  }

  lemma EventSetSnoc(trs: seq<SemanticTransition>, t: SemanticTransition)
    requires t.event.Some?
    ensures EventSet(trs + [t]) == EventSet(trs) + {t.event.value}
  {
    assert forall u :: u in trs + [t] <==> u in trs || u == t;
  }

  /** Handling one more passing transition adds its event and its sub-transition. */
  lemma PassedStep(states: seq<SemanticState>, cur: nat, passed: seq<SemanticTransition>, rank: seq<nat>, k: nat,
                   seen: set<string>, base: seq<SubTransition>)
    requires Optimizable(states, rank) && cur < |states|
    requires forall t :: t in passed && t.nextState.Some? ==> t.nextState.value < |states|
    requires k < |passed| && passed[k].event.Some?
    ensures seen + EventSet(passed[..k]) + {passed[k].event.value} == seen + EventSet(passed[..k + 1])
    ensures base + SubsFor(states, cur, passed[..k], rank) + [OptimizeSub(states, cur, passed[k], rank)]
         == base + SubsFor(states, cur, passed[..k + 1], rank)
  {
    assert passed[..k + 1] == passed[..k] + [passed[k]];
    EventSetSnoc(passed[..k], passed[k]);
  }

  lemma EventSetMember(trs: seq<SemanticTransition>, e: string)
    ensures e in EventSet(trs) <==> exists t :: t in trs && t.event == Some(e)
  {
    if exists t :: t in trs && t.event == Some(e) {
      var t :| t in trs && t.event == Some(e);
      assert t.event.value == e;
    }
  }

  /** A seen event is defined by some state of the hierarchy. */
  lemma {:induction false} SeenDefined(states: seq<SemanticState>, hs: seq<nat>, e: string) returns (j: nat)
    requires InRange(states, hs) && e in Seen(states, hs)
    ensures j < |hs| && Defines(states, hs[j], e)
  {
    var n := |hs| - 1;
    var init := hs[..n];
    var prevSeen := Seen(states, init);
    var trs := states[hs[n]].transitions;
    var passed := Passing(trs, prevSeen);
    if e in prevSeen {
      j := SeenDefined(states, init, e);
      assert hs[j] == init[j];
    } else {
      assert e in EventSet(passed);
      EventSetMember(passed, e);
      var t :| t in passed && t.event == Some(e);
      var k :| 0 <= k < |trs| && trs[k] == t;
      j := n;
    }
  }

  /** An event defined by a state of the hierarchy is seen. */
  lemma {:induction false} DefinedSeen(states: seq<SemanticState>, hs: seq<nat>, j: nat, e: string)
    requires InRange(states, hs) && j < |hs| && Defines(states, hs[j], e)
    ensures e in Seen(states, hs)
  {
    var n := |hs| - 1;
    var init := hs[..n];
    var prevSeen := Seen(states, init);
    var trs := states[hs[n]].transitions;
    if j < n {
      assert init[j] == hs[j];
      DefinedSeen(states, init, j, e);
    } else if e !in prevSeen {
      var k :| 0 <= k < |trs| && trs[k].event == Some(e);
      PassingKeeps(trs, prevSeen, trs[k]);
      EventSetMember(Passing(trs, prevSeen), e);
    }
  }

  /** The events the table has seen are exactly the events some state of the hierarchy defines. */
  lemma TableSeen(states: seq<SemanticState>, hs: seq<nat>, e: string)
    requires InRange(states, hs)
    ensures e in Seen(states, hs) <==> exists j :: 0 <= j < |hs| && Defines(states, hs[j], e)
  {
    if e in Seen(states, hs) {
      var j := SeenDefined(states, hs, e);
    }
    if exists j :: 0 <= j < |hs| && Defines(states, hs[j], e) {
      var j :| 0 <= j < |hs| && Defines(states, hs[j], e);
      DefinedSeen(states, hs, j, e);
    }
  }

  /** A non-empty hierarchy's table: the table of all but its last state, then the last state's passing transitions. */
  lemma TableLast(states: seq<SemanticState>, cur: nat, hs: seq<nat>, rank: seq<nat>)
    requires Optimizable(states, rank) && cur < |states| && InRange(states, hs) && hs != []
    ensures InRange(states, hs[..|hs| - 1])
    ensures var init := hs[..|hs| - 1];
      var passed := Passing(states[hs[|hs| - 1]].transitions, Seen(states, init));
      Seen(states, hs) == Seen(states, init) + EventSet(passed) &&
      Subs(states, cur, hs, rank) == Subs(states, cur, init, rank) + SubsFor(states, cur, passed, rank)
  {
  }

  /** The sub-transition made from a passing transition is on that transition's event. */
  lemma SubsForEvent(states: seq<SemanticState>, cur: nat, passed: seq<SemanticTransition>, rank: seq<nat>, k: nat)
    requires Optimizable(states, rank) && cur < |states|
    requires forall t :: t in passed && t.nextState.Some? ==> t.nextState.value < |states|
    requires k < |passed| && passed[k].event.Some?
    ensures SubsFor(states, cur, passed, rank)[k].event == passed[k].event.value
    ensures SubsFor(states, cur, passed, rank)[k].event in EventSet(passed)
  {
    assert SubsFor(states, cur, passed, rank)[k] == OptimizeSub(states, cur, passed[k], rank);
    assert passed[k] in passed;
  }

  /** Every sub-transition's event has been seen. */
  lemma {:induction false} TableSubSeen(states: seq<SemanticState>, cur: nat, hs: seq<nat>, rank: seq<nat>, i: nat)
    requires Optimizable(states, rank) && cur < |states| && InRange(states, hs)
    requires i < |Subs(states, cur, hs, rank)|
    ensures Subs(states, cur, hs, rank)[i].event in Seen(states, hs)
  {
    var n := |hs| - 1;
    var init := hs[..n];
    TableLast(states, cur, hs, rank);
    var passed := Passing(states[hs[n]].transitions, Seen(states, init));
    var prev := Subs(states, cur, init, rank);
    if i < |prev| {
      TableSubSeen(states, cur, init, rank, i);
    } else {
      SubsForEvent(states, cur, passed, rank, i - |prev|);
    }
  }

  /** Every seen event has a sub-transition. */
  lemma {:induction false} TableSubFor(states: seq<SemanticState>, cur: nat, hs: seq<nat>, rank: seq<nat>, e: string) returns (i: nat)
    requires Optimizable(states, rank) && cur < |states| && InRange(states, hs)
    requires e in Seen(states, hs)
    ensures i < |Subs(states, cur, hs, rank)| && Subs(states, cur, hs, rank)[i].event == e
  {
    var init := hs[..|hs| - 1];
    TableLast(states, cur, hs, rank);
    if e in Seen(states, init) {
      i := TableSubFor(states, cur, init, rank, e);
      TablePrefix(states, cur, hs, rank, i);
    } else {
      i := TableSubForLast(states, cur, hs, rank, e);
    }
  }

  /** The table of all but the last state of the hierarchy is a prefix of the whole table. */
  lemma TablePrefix(states: seq<SemanticState>, cur: nat, hs: seq<nat>, rank: seq<nat>, i: nat)
    requires Optimizable(states, rank) && cur < |states| && InRange(states, hs) && hs != []
    requires InRange(states, hs[..|hs| - 1]) && i < |Subs(states, cur, hs[..|hs| - 1], rank)|
    ensures i < |Subs(states, cur, hs, rank)| && Subs(states, cur, hs, rank)[i] == Subs(states, cur, hs[..|hs| - 1], rank)[i]
  {
    TableLast(states, cur, hs, rank);
  }

  /** An event first seen at the last state of the hierarchy has a sub-transition among that state's. */
  lemma TableSubForLast(states: seq<SemanticState>, cur: nat, hs: seq<nat>, rank: seq<nat>, e: string) returns (i: nat)
    requires Optimizable(states, rank) && cur < |states| && InRange(states, hs) && hs != []
    requires InRange(states, hs[..|hs| - 1]) && e in Seen(states, hs) && e !in Seen(states, hs[..|hs| - 1])
    ensures i < |Subs(states, cur, hs, rank)| && Subs(states, cur, hs, rank)[i].event == e
  {
    var init := hs[..|hs| - 1];
    TableLast(states, cur, hs, rank);
    var passed := Passing(states[hs[|hs| - 1]].transitions, Seen(states, init));
    var a := PassingIndex(passed, e);
    SubsForEvent(states, cur, passed, rank, a);
    i := |Subs(states, cur, init, rank)| + a;
  }

  /** An event of a list of transitions is the event of one of them. */
  lemma PassingIndex(passed: seq<SemanticTransition>, e: string) returns (a: nat)
    requires e in EventSet(passed)
    ensures a < |passed| && passed[a].event == Some(e)
  {
    EventSetMember(passed, e);
    var t :| t in passed && t.event == Some(e);
    a :| a < |passed| && passed[a] == t;
  }

  /**
   * Each sub-transition is the optimized form of a transition of the first
   * state of the hierarchy that defines its event.
   */
  lemma TableFirst(states: seq<SemanticState>, cur: nat, hs: seq<nat>, rank: seq<nat>, i: nat)
    requires Optimizable(states, rank) && cur < |states| && InRange(states, hs)
    requires i < |Subs(states, cur, hs, rank)|
    ensures var st := Subs(states, cur, hs, rank)[i];
      exists j, t ::
        0 <= j < |hs| && t in states[hs[j]].transitions && t.event == Some(st.event) &&
        st == OptimizeSub(states, cur, t, rank) &&
        forall j' :: 0 <= j' < j ==> !Defines(states, hs[j'], st.event)
  {
    var j, t := TableFirstAt(states, cur, hs, rank, i);
  }

  /** The position in the hierarchy and the transition that `TableFirst` speaks of. */
  lemma {:induction false} TableFirstAt(states: seq<SemanticState>, cur: nat, hs: seq<nat>, rank: seq<nat>, i: nat)
    returns (j: nat, t: SemanticTransition)
    requires Optimizable(states, rank) && cur < |states| && InRange(states, hs)
    requires i < |Subs(states, cur, hs, rank)|
    ensures var st := Subs(states, cur, hs, rank)[i];
      j < |hs| && t in states[hs[j]].transitions && t.event == Some(st.event) &&
      st == OptimizeSub(states, cur, t, rank) &&
      forall j' :: 0 <= j' < j ==> !Defines(states, hs[j'], st.event)
  {
    var n := |hs| - 1;
    var init := hs[..n];
    TableLast(states, cur, hs, rank);
    var prevSubs := Subs(states, cur, init, rank);
    var passed := Passing(states[hs[n]].transitions, Seen(states, init));
    var e := Subs(states, cur, hs, rank)[i].event;
    if i < |prevSubs| {
      j, t := TableFirstAt(states, cur, init, rank, i);
      TableFirstPrefix(states, hs, init, j, e);
    } else {
      j, t := n, passed[i - |prevSubs|];
      assert t in passed;
      TableSeen(states, init, e);
      TableFirstPrefix(states, hs, init, n, e);
    }
  }

  /** What holds of the first `j` states of a hierarchy's prefix holds of the hierarchy's. */
  lemma TableFirstPrefix(states: seq<SemanticState>, hs: seq<nat>, init: seq<nat>, j: nat, e: string)
    requires hs != [] && init == hs[..|hs| - 1] && j <= |init| && InRange(states, hs)
    requires forall j' :: 0 <= j' < j ==> !Defines(states, init[j'], e)
    ensures forall j' :: 0 <= j' < j ==> !Defines(states, hs[j'], e)
  {
    forall j' | 0 <= j' < j ensures !Defines(states, hs[j'], e) {
      assert hs[j'] == init[j'];
    }
  }

  /** No two sub-transitions share an event. */
  ghost predicate DistinctSubEvents(subs: seq<SubTransition>)
  {
    forall a, b :: 0 <= a < b < |subs| ==> subs[a].event != subs[b].event
  }

  /** When every state's events are distinct, a table has at most one sub-transition per event. */
  lemma {:induction false} TableDistinct(states: seq<SemanticState>, cur: nat, hs: seq<nat>, rank: seq<nat>)
    requires Optimizable(states, rank) && cur < |states| && InRange(states, hs)
    requires forall j :: 0 <= j < |hs| ==> DistinctEvents(states[hs[j]].transitions)
    ensures DistinctSubEvents(Subs(states, cur, hs, rank))
  {
    if hs != [] {
      var n := |hs| - 1;
      var init := hs[..n];
      assert forall j :: 0 <= j < |init| ==> init[j] == hs[j];
      TableDistinct(states, cur, init, rank);
      var prevSeen := Seen(states, init);
      var prevSubs := Subs(states, cur, init, rank);
      var passed := Passing(states[hs[n]].transitions, prevSeen);
      PassingDistinct(states[hs[n]].transitions, prevSeen);
      SubsForDistinct(states, cur, passed, rank, prevSeen);
      forall a | 0 <= a < |prevSubs| ensures prevSubs[a].event in prevSeen {
        TableSubSeen(states, cur, init, rank, a);
      }
      AppendDistinctEvents(prevSubs, SubsFor(states, cur, passed, rank), prevSeen);
    }
  }

  /** Transitions with distinct events, none of them seen, give sub-transitions with distinct unseen events. */
  lemma SubsForDistinct(states: seq<SemanticState>, cur: nat, passed: seq<SemanticTransition>, rank: seq<nat>, seen: set<string>)
    requires Optimizable(states, rank) && cur < |states|
    requires forall t :: t in passed && t.nextState.Some? ==> t.nextState.value < |states|
    requires DistinctEvents(passed)
    requires forall i :: 0 <= i < |passed| ==> passed[i].event.Some? && passed[i].event.value !in seen
    ensures DistinctSubEvents(SubsFor(states, cur, passed, rank))
    ensures forall i :: 0 <= i < |passed| ==> SubsFor(states, cur, passed, rank)[i].event !in seen
  {
    var subs := SubsFor(states, cur, passed, rank);
    forall i | 0 <= i < |passed| ensures subs[i].event == passed[i].event.value {
      assert subs[i] == OptimizeSub(states, cur, passed[i], rank);
    }
  }

  /** Appending sub-transitions on unseen events to ones on seen events keeps the events distinct. */
  lemma AppendDistinctEvents(prev: seq<SubTransition>, more: seq<SubTransition>, seen: set<string>)
    requires DistinctSubEvents(prev) && DistinctSubEvents(more)
    requires forall a :: 0 <= a < |prev| ==> prev[a].event in seen
    requires forall b :: 0 <= b < |more| ==> more[b].event !in seen
    ensures DistinctSubEvents(prev + more)
  {
    var all := prev + more;
    forall a, b | 0 <= a < b < |all| ensures all[a].event != all[b].event {
      if b < |prev| {
        assert all[a] == prev[a] && all[b] == prev[b];
      } else if a < |prev| {
        assert all[a] == prev[a] && all[b] == more[b - |prev|];
      } else {
        assert all[a] == more[a - |prev|] && all[b] == more[b - |prev|];
      }
    }
  }

  /** A concrete state's table has a sub-transition on `e` exactly when the state or one of its ancestors defines `e`. */
  lemma StateTableEvents(states: seq<SemanticState>, cur: nat, rank: seq<nat>, e: string)
    requires Optimizable(states, rank) && cur < |states|
    ensures var subs := TransitionFor(states, cur, rank).subTransitions;
      (exists i :: 0 <= i < |subs| && subs[i].event == e) <==>
        exists x :: 0 <= x < |states| && IsSuperStateOf(states, cur, x, rank) && Defines(states, x, e)
  {
    RootFirstStarts(states, cur, rank);
    var hs := RootFirst(states, cur, rank);
    ghost var seen := Seen(states, hs);
    ghost var subs0 := Subs(states, cur, hs, rank);
    var subs := TransitionFor(states, cur, rank).subTransitions;
    assert subs == subs0;
    TableSeen(states, hs, e);
    if exists x :: 0 <= x < |states| && IsSuperStateOf(states, cur, x, rank) && Defines(states, x, e) {
      var x :| 0 <= x < |states| && IsSuperStateOf(states, cur, x, rank) && Defines(states, x, e);
      assert x in hs;
      var j :| 0 <= j < |hs| && hs[j] == x;
      var i := TableSubFor(states, cur, hs, rank, e);
    }
    if exists i :: 0 <= i < |subs| && subs[i].event == e {
      var i :| 0 <= i < |subs| && subs[i].event == e;
      TableSubSeen(states, cur, hs, rank, i);
      var j :| 0 <= j < |hs| && Defines(states, hs[j], e);
      assert hs[j] in hs;
    }
  }

  /** When every state's events are distinct, a concrete state's table has one sub-transition per event. */
  lemma StateTableDistinct(states: seq<SemanticState>, cur: nat, rank: seq<nat>)
    requires Optimizable(states, rank) && cur < |states|
    requires forall x :: 0 <= x < |states| ==> DistinctEvents(states[x].transitions)
    ensures var subs := TransitionFor(states, cur, rank).subTransitions;
      forall a, b :: 0 <= a < b < |subs| ==> subs[a].event != subs[b].event
  {
    RootFirstStarts(states, cur, rank);
    TableDistinct(states, cur, RootFirst(states, cur, rank), rank);
    assert TransitionFor(states, cur, rank).subTransitions == Subs(states, cur, RootFirst(states, cur, rank), rank);
  }

  /** An event the state defines itself is taken from the state's own transitions. */
  lemma OwnDefinitionWins(states: seq<SemanticState>, cur: nat, rank: seq<nat>, i: nat)
    requires Optimizable(states, rank) && cur < |states|
    requires i < |TransitionFor(states, cur, rank).subTransitions|
    requires Defines(states, cur, TransitionFor(states, cur, rank).subTransitions[i].event)
    ensures var st := TransitionFor(states, cur, rank).subTransitions[i];
      exists t :: t in states[cur].transitions && t.event == Some(st.event) && st == OptimizeSub(states, cur, t, rank)
  {
    RootFirstStarts(states, cur, rank);
    var hs := RootFirst(states, cur, rank);
    var subs := TransitionFor(states, cur, rank).subTransitions;
    assert subs == Subs(states, cur, hs, rank);
    TableFirst(states, cur, hs, rank, i);
    var j, t :| 0 <= j < |hs| && t in states[hs[j]].transitions && t.event == Some(subs[i].event) &&
      subs[i] == OptimizeSub(states, cur, t, rank) &&
      forall j' :: 0 <= j' < j ==> !Defines(states, hs[j'], subs[i].event);
    assert j == 0;
  }

  /**
   * Exit actions run from the state outwards: the state's own first, then
   * those of its strict ancestors, outermost last.
   */
  lemma ExitOrder(states: seq<SemanticState>, cur: nat, rank: seq<nat>)
    requires Optimizable(states, rank) && cur < |states|
    ensures var hs := RootFirst(states, cur, rank);
      |hs| > 0 && hs[0] == cur && InRange(states, hs[1..]) &&
      (forall x :: x in hs[1..] ==> x != cur && IsSuperStateOf(states, cur, x, rank)) &&
      ExitsOf(states, hs) == states[cur].exitActions + ExitsOf(states, hs[1..])
  {
    RootFirstStarts(states, cur, rank);
    var hs := RootFirst(states, cur, rank);
    ExitsCons(states, hs);
    forall x | x in hs[1..] ensures x != cur && IsSuperStateOf(states, cur, x, rank) {
      var i :| 0 <= i < |hs[1..]| && hs[1..][i] == x;
      assert hs[i + 1] == x;
    }
  }

  /**
   * Entry actions run from the outermost ancestor in: the target's strict
   * ancestors first, the target's own last.
   */
  lemma EntryOrder(states: seq<SemanticState>, next: nat, rank: seq<nat>)
    requires Optimizable(states, rank) && next < |states|
    ensures var ls := LeafFirst(states, next, [], rank);
      |ls| > 0 && InRange(states, ls[..|ls| - 1]) &&
      (forall x :: x in ls[..|ls| - 1] ==> x != next && IsSuperStateOf(states, next, x, rank)) &&
      EntriesOf(states, ls) == EntriesOf(states, ls[..|ls| - 1]) + states[next].entryActions
  {
    LeafFirstFacts(states, next, rank);
    var ls := LeafFirst(states, next, [], rank);
    var init := ls[..|ls| - 1];
    forall x | x in init ensures x != next && IsSuperStateOf(states, next, x, rank) {
      var i :| 0 <= i < |init| && init[i] == x;
      assert ls[i] == x;
    }
  }

  /**
   * A sub-transition runs the exit actions from the current state outwards,
   * then the entry actions down to the target, then the transition's own.
   */
  lemma ActionOrder(states: seq<SemanticState>, cur: nat, t: SemanticTransition, rank: seq<nat>)
    requires Optimizable(states, rank) && cur < |states|
    requires t.nextState.Some? ==> t.nextState.value < |states|
    ensures var st := OptimizeSub(states, cur, t, rank);
      var hs := RootFirst(states, cur, rank);
      |hs| > 0 && InRange(states, hs[1..]) &&
      (t.nextState.None? ==> st.actions == states[cur].exitActions + ExitsOf(states, hs[1..]) + t.actions) &&
      (t.nextState.Some? ==>
        var ls := LeafFirst(states, t.nextState.value, [], rank);
        |ls| > 0 && InRange(states, ls[..|ls| - 1]) &&
        st.actions == states[cur].exitActions + ExitsOf(states, hs[1..]) +
          EntriesOf(states, ls[..|ls| - 1]) + states[t.nextState.value].entryActions + t.actions)
  {
    ExitOrder(states, cur, rank);
    OptimizeSubParts(states, cur, t, rank);
    var hs := RootFirst(states, cur, rank);
    var exits := states[cur].exitActions + ExitsOf(states, hs[1..]);
    if t.nextState.Some? {
      var next := t.nextState.value;
      EntryOrder(states, next, rank);
      var ls := LeafFirst(states, next, [], rank);
      SeqAssoc(exits, EntriesOf(states, ls[..|ls| - 1]), states[next].entryActions);
    } else {
      assert exits + [] == exits;
    }
  }

  lemma {:induction false} ExitsCons(states: seq<SemanticState>, hs: seq<nat>)
    requires InRange(states, hs) && |hs| > 0
    ensures ExitsOf(states, hs) == states[hs[0]].exitActions + ExitsOf(states, hs[1..])
  {
    var n := |hs| - 1;
    if n > 0 {
      ExitsCons(states, hs[..n]);
      assert hs[..n][1..] == hs[1..][..n - 1];
    } else {
      assert hs[1..] == [];
      assert ExitsOf(states, hs[..0]) == [];
    }
  }

  // ---------------------------------------------------------------------
  // The concrete states

  /** A concrete state's name is listed. */
  lemma {:induction false} ConcreteNameListed(states: seq<SemanticState>, i: nat)
    requires i < |states| && !states[i].isAbstractState
    ensures states[i].name in ConcreteNames(states)
  {
    var n := |states| - 1;
    if i < n {
      ConcreteNameListed(states[..n], i);
    }
  }

  /** Every listed name is the name of a concrete state. */
  lemma {:induction false} ListedNameConcrete(states: seq<SemanticState>, x: string) returns (i: nat)
    requires x in ConcreteNames(states)
    ensures i < |states| && states[i].name == x && !states[i].isAbstractState
  {
    var n := |states| - 1;
    var s := states[n];
    if !s.isAbstractState && x == s.name {
      i := n;
    } else {
      i := ListedNameConcrete(states[..n], x);
    }
  }

  /** Some state of the hierarchy of `cur` defines `e`. */
  ghost predicate InHierarchy(states: seq<SemanticState>, cur: nat, e: string, rank: seq<nat>)
    requires Optimizable(states, rank) && cur < |states|
  {
    exists x :: 0 <= x < |states| && IsSuperStateOf(states, cur, x, rank) && Defines(states, x, e)
  }

  /** Every event of `subs` is defined by `cur` or one of its ancestors. */
  ghost predicate EventsInHierarchy(states: seq<SemanticState>, cur: nat, subs: seq<SubTransition>, rank: seq<nat>)
    requires Optimizable(states, rank) && cur < |states|
  {
    forall i :: 0 <= i < |subs| ==> InHierarchy(states, cur, subs[i].event, rank)
  }

  /** Every event of a state's table is defined by the state or one of its ancestors. */
  lemma SubEventsInHierarchy(states: seq<SemanticState>, cur: nat, rank: seq<nat>)
    requires Optimizable(states, rank) && cur < |states|
    ensures EventsInHierarchy(states, cur, Subs(states, cur, RootFirst(states, cur, rank), rank), rank)
  {
    RootFirstStarts(states, cur, rank);
    var hs := RootFirst(states, cur, rank);
    var subs := Subs(states, cur, hs, rank);
    forall i | 0 <= i < |subs| ensures InHierarchy(states, cur, subs[i].event, rank) {
      TableSubSeen(states, cur, hs, rank, i);
      TableSeen(states, hs, subs[i].event);
      var j :| 0 <= j < |hs| && Defines(states, hs[j], subs[i].event);
      assert hs[j] in hs;
    }
  }

  /** One transition per concrete state, in the order of the state list. */
  lemma {:induction false} ConcreteAligned(states: seq<SemanticState>, n: nat, rank: seq<nat>)
    requires Optimizable(states, rank) && n <= |states|
    ensures var ts := ConcreteTransitions(states, n, rank);
      var names := ConcreteNames(states[..n]);
      |ts| == |names| && forall i :: 0 <= i < |ts| ==> ts[i].currentState == names[i]
  {
    if n > 0 {
      ConcreteAligned(states, n - 1, rank);
      var s := states[n - 1];
      var prev := ConcreteTransitions(states, n - 1, rank);
      var names := ConcreteNames(states[..n - 1]);
      assert states[..n][..n - 1] == states[..n - 1];
      assert ConcreteNames(states[..n]) == names + (if s.isAbstractState then [] else [s.name]);
      if !s.isAbstractState {
        var ts := prev + [TransitionFor(states, n - 1, rank)];
        var all := names + [s.name];
        forall i | 0 <= i < |ts| ensures ts[i].currentState == all[i] {
          if i < |prev| {
            assert ts[i] == prev[i] && all[i] == names[i];
          }
        }
      } else {
        assert prev + [] == prev && names + [] == names;
      }
    }
  }

  /** Extending a hierarchy prefix by one state adds that state's passing transitions. */
  lemma TableStep(states: seq<SemanticState>, cur: nat, hs: seq<nat>, j: nat, rank: seq<nat>)
    requires Optimizable(states, rank) && cur < |states| && InRange(states, hs) && j < |hs|
    ensures InRange(states, hs[..j]) && InRange(states, hs[..j + 1])
    ensures var passed := Passing(states[hs[j]].transitions, Seen(states, hs[..j]));
      Seen(states, hs[..j + 1]) == Seen(states, hs[..j]) + EventSet(passed) &&
      Subs(states, cur, hs[..j + 1], rank) == Subs(states, cur, hs[..j], rank) + SubsFor(states, cur, passed, rank)
  {
    assert hs[..j + 1][..j] == hs[..j];
  }

  /** After the first `j` states of the hierarchy: the events seen and the sub-transitions added so far. */
  ghost predicate StepsDone(states: seq<SemanticState>, cur: nat, hs: seq<nat>, j: nat, rank: seq<nat>,
                            start: Transition, events: set<string>, t: Transition)
  {
    Optimizable(states, rank) && cur < |states| && InRange(states, hs) && j <= |hs| &&
    InRange(states, hs[..j]) &&
    events == Seen(states, hs[..j]) &&
    t.currentState == start.currentState &&
    t.subTransitions == start.subTransitions + Subs(states, cur, hs[..j], rank)
  }

  /** The sub-transitions added so far grow by those of the next state of the hierarchy. */
  lemma SubsGrow(states: seq<SemanticState>, cur: nat, hs: seq<nat>, j: nat, rank: seq<nat>,
                 start: seq<SubTransition>, seen: set<string>, before: seq<SubTransition>, after: seq<SubTransition>)
    requires Optimizable(states, rank) && cur < |states| && InRange(states, hs) && j < |hs|
    requires InRange(states, hs[..j]) && seen == Seen(states, hs[..j])
    requires before == start + Subs(states, cur, hs[..j], rank)
    requires after == before + SubsFor(states, cur, Passing(states[hs[j]].transitions, seen), rank)
    ensures InRange(states, hs[..j + 1])
    ensures after == start + Subs(states, cur, hs[..j + 1], rank)
  {
    TableStep(states, cur, hs, j, rank);
    SeqAssoc(start, Subs(states, cur, hs[..j], rank), SubsFor(states, cur, Passing(states[hs[j]].transitions, seen), rank));
  }

  lemma ConcreteNamesStep(states: seq<SemanticState>, i: nat)
    requires i < |states|
    ensures ConcreteNames(states[..i + 1]) == ConcreteNames(states[..i]) + (if states[i].isAbstractState then [] else [states[i].name])
  {
    assert states[..i + 1][..i] == states[..i];
  }

  /** The transition `addTransitions` appends for state `i`: none for an abstract state. */
  function ConcreteTransitionOf(states: seq<SemanticState>, i: nat, ghost rank: seq<nat>): seq<Transition>
    requires Optimizable(states, rank) && i < |states|
  {
    if states[i].isAbstractState then [] else [TransitionFor(states, i, rank)]
  }

  lemma TransitionsGrow(start: seq<Transition>, states: seq<SemanticState>, i: nat, rank: seq<nat>)
    requires Optimizable(states, rank) && i < |states|
    ensures start + ConcreteTransitions(states, i + 1, rank) ==
      (start + ConcreteTransitions(states, i, rank)) + ConcreteTransitionOf(states, i, rank)
  {
    SeqAssoc(start, ConcreteTransitions(states, i, rank), ConcreteTransitionOf(states, i, rank));
  }

  /** The loop of `addSubTransitions` keeps `StepsDone` when it handles one more state. */
  lemma StepsDoneStep(states: seq<SemanticState>, cur: nat, hs: seq<nat>, j: nat, rank: seq<nat>,
                      start: Transition, seen: set<string>, before: Transition, events: set<string>, t: Transition)
    requires j < |hs| && StepsDone(states, cur, hs, j, rank, start, seen, before)
    requires var passed := Passing(states[hs[j]].transitions, seen);
      events == seen + EventSet(passed) &&
      t == before.(subTransitions := before.subTransitions + SubsFor(states, cur, passed, rank))
    ensures StepsDone(states, cur, hs, j + 1, rank, start, events, t)
  {
    TableStep(states, cur, hs, j, rank);
    SubsGrow(states, cur, hs, j, rank, start.subTransitions, seen, before.subTransitions, t.subTransitions);
  }

  /** When the loop of `addSubTransitions` has handled every state, it has added the whole table. */
  lemma StepsDoneAll(states: seq<SemanticState>, cur: nat, hs: seq<nat>, rank: seq<nat>,
                     start: Transition, events: set<string>, t: Transition)
    requires StepsDone(states, cur, hs, |hs|, rank, start, events, t)
    ensures events == Seen(states, hs)
    ensures t.currentState == start.currentState
    ensures t.subTransitions == start.subTransitions + Subs(states, cur, hs, rank)
  {
    assert hs[..|hs|] == hs;
  }

  // ---------------------------------------------------------------------
  // The classes

  class Optimizer {
    var optimizedStateMachine: OptimizedStateMachine
    var semanticStateMachine: SemanticStateMachine

    /** Both fields are set by `optimize` before they are read. */
    constructor()
      ensures fresh(optimizedStateMachine) && fresh(semanticStateMachine)
      ensures optimizedStateMachine.header.None? && optimizedStateMachine.transitions == []
    {
      optimizedStateMachine := new OptimizedStateMachine();
      semanticStateMachine := new SemanticStateMachine();
    }

    /** `optimize`: a new optimized machine holding the header, the lists and the flattened transitions. */
    method Optimize(ast: SemanticStateMachine, ghost rank: seq<nat>) returns (r: OptimizedStateMachine)
      requires Optimizable(ast.states, rank)
      requires ast.initialState.Some? ==> ast.initialState.value < |ast.states|
      modifies this
      ensures fresh(r) && r == optimizedStateMachine && semanticStateMachine == ast
      ensures r.Value() == Optimized(ast.Value(), rank)
    {
      semanticStateMachine := ast;
      optimizedStateMachine := new OptimizedStateMachine();
      assert ast as object != optimizedStateMachine as object;
      AddHeader();
      AddLists();
      AddTransitions(rank);
      r := optimizedStateMachine;
    }

    /** `addHeader`: absent name, initial state and action class become "". */
    method AddHeader()
      requires semanticStateMachine.initialState.Some? ==> semanticStateMachine.initialState.value < |semanticStateMachine.states|
      modifies optimizedStateMachine
      ensures optimizedStateMachine.Value() ==
        old(optimizedStateMachine.Value()).(header := Some(HeaderOf(semanticStateMachine.Value())))
    {
      var sm := semanticStateMachine;
      var initial := if sm.initialState.Some? then sm.states[sm.initialState.value].name else "";
      optimizedStateMachine.header := Some(Header(sm.fsmName.GetOr(""), initial, sm.actionClass.GetOr("")));
    }

    /** `addLists`. */
    method AddLists()
      modifies optimizedStateMachine
      ensures optimizedStateMachine.Value() == old(optimizedStateMachine.Value()).(
        states := old(optimizedStateMachine.states) + ConcreteNames(semanticStateMachine.states),
        events := old(optimizedStateMachine.events) + semanticStateMachine.events,
        actions := old(optimizedStateMachine.actions) + semanticStateMachine.actions)
    {
      AddStates();
      AddEvents();
      AddActions();
    }

    /** `addTransitions`: a `StateOptimizer` per concrete state, in order. */
    method AddTransitions(ghost rank: seq<nat>)
      requires Optimizable(semanticStateMachine.states, rank)
      modifies optimizedStateMachine
      ensures optimizedStateMachine.Value() == old(optimizedStateMachine.Value()).(
        transitions := old(optimizedStateMachine.transitions) +
          ConcreteTransitions(semanticStateMachine.states, |semanticStateMachine.states|, rank))
    {
      var states := semanticStateMachine.states;
      var osm := optimizedStateMachine;
      ghost var start := osm.Value();
      assert semanticStateMachine as object != osm as object;
      var i := 0;
      while i < |states|
        invariant i <= |states|
        invariant osm == optimizedStateMachine && states == semanticStateMachine.states
        invariant osm.Value() == start.(transitions := start.transitions + ConcreteTransitions(states, i, rank))
      {
        ghost var done := ConcreteTransitions(states, i, rank);
        ghost var more := ConcreteTransitionOf(states, i, rank);
        TransitionsGrow(start.transitions, states, i, rank);
        AddTransitionsOf(states, i, rank);
        assert osm.Value() == start.(transitions := start.transitions + done + more);
        i := i + 1;
      }
    }

    /** The body of the loop in `addTransitions`: a concrete state's transition is appended. */
    method AddTransitionsOf(states: seq<SemanticState>, i: nat, ghost rank: seq<nat>)
      requires Optimizable(states, rank) && i < |states|
      modifies optimizedStateMachine
      ensures optimizedStateMachine.Value() == old(optimizedStateMachine.Value()).(
        transitions := old(optimizedStateMachine.transitions) + ConcreteTransitionOf(states, i, rank))
    {
      if !states[i].isAbstractState {
        var so := new StateOptimizer(states, i, optimizedStateMachine, rank);
        so.AddTransitionsForState();
      } else {
        assert optimizedStateMachine.transitions + [] == optimizedStateMachine.transitions;
      }
    }

    /** `addStates`: the names of the concrete states, in order. */
    method AddStates()
      modifies optimizedStateMachine
      ensures optimizedStateMachine.Value() ==
        old(optimizedStateMachine.Value()).(states := old(optimizedStateMachine.states) + ConcreteNames(semanticStateMachine.states))
    {
      var states := semanticStateMachine.states;
      var osm := optimizedStateMachine;
      var i := 0;
      while i < |states|
        invariant i <= |states|
        invariant osm.Value() == old(osm.Value()).(states := old(osm.states) + ConcreteNames(states[..i]))
      {
        var name := if states[i].isAbstractState then [] else [states[i].name];
        ConcreteNamesStep(states, i);
        SeqAssoc(old(osm.states), ConcreteNames(states[..i]), name);
        osm.states := osm.states + name;
        i := i + 1;
      }
      assert states[..i] == states;
    }

    /** `addEvents`. */
    method AddEvents()
      modifies optimizedStateMachine
      ensures optimizedStateMachine.Value() ==
        old(optimizedStateMachine.Value()).(events := old(optimizedStateMachine.events) + semanticStateMachine.events)
    {
      optimizedStateMachine.events := optimizedStateMachine.events + semanticStateMachine.events;
    }

    /** `addActions`. */
    method AddActions()
      modifies optimizedStateMachine
      ensures optimizedStateMachine.Value() ==
        old(optimizedStateMachine.Value()).(actions := old(optimizedStateMachine.actions) + semanticStateMachine.actions)
    {
      optimizedStateMachine.actions := optimizedStateMachine.actions + semanticStateMachine.actions;
    }

    /**
     * `addAllStatesInHierarchyLeafFirst`: for each super-state not yet in the
     * hierarchy, its own hierarchy first; then the state itself.
     */
    static method AddAllStatesInHierarchyLeafFirst(states: seq<SemanticState>, s: nat, hierarchy: seq<nat>, ghost rank: seq<nat>)
      returns (r: seq<nat>)
      requires Ranked(states, rank) && s < |states|
      ensures r == LeafFirst(states, s, hierarchy, rank)
      decreases rank[s]
    {
      var supers := states[s].superStates;
      r := hierarchy;
      var k := 0;
      while k < |supers|
        invariant k <= |supers|
        invariant r == SupersLeafFirst(states, s, k, hierarchy, rank)
      {
        if supers[k] !in r {
          r := AddAllStatesInHierarchyLeafFirst(states, supers[k], r, rank);
        }
        k := k + 1;
      }
      r := r + [s];
    }
  }

  class StateOptimizer {
    const states: seq<SemanticState>
    const currentState: nat
    const optimizedStateMachine: OptimizedStateMachine
    var eventsForThisState: set<string>
    ghost const rank: seq<nat>

    constructor(states: seq<SemanticState>, currentState: nat, optimizedStateMachine: OptimizedStateMachine, ghost rank: seq<nat>)
      ensures this.states == states && this.currentState == currentState
      ensures this.optimizedStateMachine == optimizedStateMachine && this.rank == rank
      ensures eventsForThisState == {}
    {
      this.states := states;
      this.currentState := currentState;
      this.optimizedStateMachine := optimizedStateMachine;
      this.rank := rank;
      eventsForThisState := {};
    }

    ghost predicate Valid()
    {
      Optimizable(states, rank) && currentState < |states|
    }

    /** `addTransitionsForState`: the state's transition, with its sub-transitions, is appended. */
    method AddTransitionsForState()
      requires Valid() && eventsForThisState == {}
      modifies this, optimizedStateMachine
      ensures optimizedStateMachine.Value() == old(optimizedStateMachine.Value()).(
        transitions := old(optimizedStateMachine.transitions) + [TransitionFor(states, currentState, rank)])
    {
      var transition := Transition(states[currentState].name, []);
      transition := AddSubTransitions(transition);
      assert transition.subTransitions == Subs(states, currentState, RootFirst(states, currentState, rank), rank);
      optimizedStateMachine.transitions := optimizedStateMachine.transitions + [transition];
    }

    /** `addSubTransitions`: the transitions of each state of the hierarchy, the current state first. */
    method AddSubTransitions(transition: Transition) returns (t: Transition)
      requires Valid() && eventsForThisState == {}
      modifies this
      ensures var hs := RootFirst(states, currentState, rank);
        eventsForThisState == Seen(states, hs) &&
        t == transition.(subTransitions := transition.subTransitions + Subs(states, currentState, hs, rank))
    {
      var hierarchy := MakeRootFirstHierarchyOfStates();
      t := transition;
      var j := 0;
      while j < |hierarchy|
        invariant j <= |hierarchy|
        invariant StepsDone(states, currentState, hierarchy, j, rank, transition, eventsForThisState, t)
      {
        ghost var seen := eventsForThisState;
        ghost var before := t;
        t := AddStateTransitions(t, hierarchy[j]);
        StepsDoneStep(states, currentState, hierarchy, j, rank, transition, seen, before, eventsForThisState, t);
        j := j + 1;
      }
      StepsDoneAll(states, currentState, hierarchy, rank, transition, eventsForThisState, t);
    }

    /** `makeRootFirstHierarchyOfStates`: the hierarchy reversed, so the current state comes first. */
    method MakeRootFirstHierarchyOfStates() returns (hierarchy: seq<nat>)
      requires Valid()
      ensures hierarchy == RootFirst(states, currentState, rank)
      ensures |hierarchy| > 0 && hierarchy[0] == currentState
    {
      hierarchy := Optimizer.AddAllStatesInHierarchyLeafFirst(states, currentState, [], rank);
      hierarchy := Reversed(hierarchy);
      RootFirstStarts(states, currentState, rank);
    }

    /**
     * `addStateTransitions`: the transitions of `state` whose event is present
     * and not yet taken are picked first; each then becomes a sub-transition.
     */
    method AddStateTransitions(transition: Transition, state: nat) returns (t: Transition)
      requires Valid() && state < |states|
      modifies this
      ensures var passed := Passing(states[state].transitions, old(eventsForThisState));
        eventsForThisState == old(eventsForThisState) + EventSet(passed) &&
        t == transition.(subTransitions := transition.subTransitions + SubsFor(states, currentState, passed, rank))
    {
      var passed := FilterPassing(states[state].transitions);
      ghost var seen := eventsForThisState;
      t := transition;
      var k := 0;
      while k < |passed|
        invariant k <= |passed|
        invariant eventsForThisState == seen + EventSet(passed[..k])
        invariant t == transition.(subTransitions := transition.subTransitions + SubsFor(states, currentState, passed[..k], rank))
      {
        assert passed[k] in states[state].transitions;
        PassedStep(states, currentState, passed, rank, k, seen, transition.subTransitions);
        t := AddSubTransition(passed[k], t);
        k := k + 1;
      }
      assert passed[..k] == passed;
    }

    /** `eventExistsAndHasNotBeenOverridden`: there is an event, and taking it would be new. */
    predicate EventExistsAndHasNotBeenOverridden(event: Option<string>): (r: bool)
      reads this
      ensures r <==> event.Some? && eventsForThisState + {event.value} != eventsForThisState
    {
      event.Some? && event.value !in eventsForThisState
    }

    /** The `filter` of `addStateTransitions`: the transitions its test lets through, in order. */
    method FilterPassing(trs: seq<SemanticTransition>) returns (passed: seq<SemanticTransition>)
      ensures passed == Passing(trs, eventsForThisState)
    {
      passed := [];
      for i := 0 to |trs|
        invariant passed == Passing(trs[..i], eventsForThisState)
      {
        if EventExistsAndHasNotBeenOverridden(trs[i].event) {
          passed := passed + [trs[i]];
        }
        assert trs[..i + 1][..i] == trs[..i];
      }
      assert trs[..|trs|] == trs;
    }

    /** `addSubTransition`: records the event and appends the optimized sub-transition. */
    method AddSubTransition(semanticTransition: SemanticTransition, transition: Transition) returns (t: Transition)
      requires Valid() && semanticTransition.event.Some?
      requires semanticTransition.nextState.Some? ==> semanticTransition.nextState.value < |states|
      modifies this
      ensures eventsForThisState == old(eventsForThisState) + {semanticTransition.event.value}
      ensures t == transition.(subTransitions := transition.subTransitions + [OptimizeSub(states, currentState, semanticTransition, rank)])
    {
      eventsForThisState := eventsForThisState + {semanticTransition.event.GetOr("")};
      var subTransition := SubTransition(semanticTransition.event.GetOr(""), "", []);
      var optimizer := new SubTransitionOptimizer(semanticTransition, subTransition, states, currentState, rank);
      optimizer.Optimize();
      assert [] + OptimizeSub(states, currentState, semanticTransition, rank).actions == OptimizeSub(states, currentState, semanticTransition, rank).actions;
      t := transition.(subTransitions := transition.subTransitions + [optimizer.subTransition]);
    }
  }

  class SubTransitionOptimizer {
    const semanticTransition: SemanticTransition
    var subTransition: SubTransition
    const states: seq<SemanticState>
    const currentState: nat
    ghost const rank: seq<nat>

    constructor(semanticTransition: SemanticTransition, subTransition: SubTransition, states: seq<SemanticState>,
                currentState: nat, ghost rank: seq<nat>)
      ensures this.semanticTransition == semanticTransition && this.subTransition == subTransition
      ensures this.states == states && this.currentState == currentState && this.rank == rank
    {
      this.semanticTransition := semanticTransition;
      this.subTransition := subTransition;
      this.states := states;
      this.currentState := currentState;
      this.rank := rank;
    }

    ghost predicate Valid()
    {
      Optimizable(states, rank) && currentState < |states| &&
      (semanticTransition.nextState.Some? ==> semanticTransition.nextState.value < |states|)
    }

    /** `optimize`: event, next state, then exit, entry and transition actions after the ones already there. */
    method Optimize()
      requires Valid()
      modifies this
      ensures var st := OptimizeSub(states, currentState, semanticTransition, rank);
        subTransition == st.(actions := old(subTransition.actions) + st.actions)
    {
      var t := semanticTransition;
      ghost var exits := ExitsOf(states, RootFirst(states, currentState, rank));
      ghost var entries := if t.nextState.Some? then EntriesOf(states, LeafFirst(states, t.nextState.value, [], rank)) else [];
      subTransition := subTransition.(event := t.event.GetOr(""));
      subTransition := subTransition.(nextState := if t.nextState.Some? then states[t.nextState.value].name else "");
      ghost var before := subTransition.actions;
      AddExitActions(currentState);
      if t.nextState.Some? {
        AddEntryActions(t.nextState.value);
      } else {
        assert (before + exits) + [] == before + exits;
      }
      subTransition := subTransition.(actions := subTransition.actions + t.actions);
      SeqAssoc(before + exits, entries, t.actions);
      SeqAssoc(before, exits, entries + t.actions);
      SeqAssoc(exits, entries, t.actions);
      OptimizeSubParts(states, currentState, t, rank);
    }

    /** `addEntryActions`: the entry actions of the hierarchy of `entryState`, outermost first. */
    method AddEntryActions(entryState: nat)
      requires Valid() && entryState < |states|
      modifies this
      ensures subTransition == old(subTransition).(actions :=
        old(subTransition.actions) + EntriesOf(states, LeafFirst(states, entryState, [], rank)))
    {
      var hierarchy := Optimizer.AddAllStatesInHierarchyLeafFirst(states, entryState, [], rank);
      var k := 0;
      while k < |hierarchy|
        invariant k <= |hierarchy|
        invariant subTransition == old(subTransition).(actions := old(subTransition.actions) + EntriesOf(states, hierarchy[..k]))
      {
        EntriesStep(states, old(subTransition.actions), hierarchy, k);
        subTransition := subTransition.(actions := subTransition.actions + states[hierarchy[k]].entryActions);
        k := k + 1;
      }
      assert hierarchy[..k] == hierarchy;
    }

    /** `addExitActions`: the exit actions of the hierarchy of `exitState`, the state's own first. */
    method AddExitActions(exitState: nat)
      requires Valid() && exitState < |states|
      modifies this
      ensures subTransition == old(subTransition).(actions :=
        old(subTransition.actions) + ExitsOf(states, RootFirst(states, exitState, rank)))
    {
      var hierarchy := Optimizer.AddAllStatesInHierarchyLeafFirst(states, exitState, [], rank);
      hierarchy := Reversed(hierarchy);
      var k := 0;
      while k < |hierarchy|
        invariant k <= |hierarchy|
        invariant subTransition == old(subTransition).(actions := old(subTransition.actions) + ExitsOf(states, hierarchy[..k]))
      {
        ExitsStep(states, old(subTransition.actions), hierarchy, k);
        subTransition := subTransition.(actions := subTransition.actions + states[hierarchy[k]].exitActions);
        k := k + 1;
      }
      assert hierarchy[..k] == hierarchy;
    }
  }
}
