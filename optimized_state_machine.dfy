/**
 * The optimizer's output: a header, the concrete states, events and actions,
 * and one `Transition` per concrete state holding its flattened
 * sub-transitions, with the text renderers the tests compare against.
 */
module OptimizedStateMachines {
  import opened Wrappers
  import opened Strings

  /** `Header`: fsm name, initial state and action class. */
  datatype Header = Header(fsm: string, initial: string, actions: string)

  /** `SubTransition`: an event, the state it leads to and the actions it runs. */
  datatype SubTransition = SubTransition(event: string, nextState: string, actions: seq<string>)

  /** `Transition`: a concrete state and its sub-transitions. */
  datatype Transition = Transition(currentState: string, subTransitions: seq<SubTransition>)

  /** `actionsString`: the actions joined by single spaces. */
  function ActionsString(st: SubTransition): (r: string)
    ensures st.actions == [] ==> r == ""
    ensures |st.actions| == 1 ==> r == st.actions[0]
    ensures |st.actions| > 1 ==> |r| > |st.actions[0]| && r[..|st.actions[0]|] == st.actions[0] && r[|st.actions[0]|] == ' '
  {
    if st.actions == [] then ""
    else
      JoinStart(st.actions, " ");
      Join(st.actions, " ")
  }

  /** `SubTransition.toString`: "  event next {a1 a2}\n". */
  function SubTransitionString(st: SubTransition): (r: string)
    ensures var head := "  " + st.event + " " + st.nextState + " {";
      |r| == |head| + |ActionsString(st)| + 2 && r[..|head|] == head &&
      r[|head|..|r| - 2] == ActionsString(st) && r[|r| - 2..] == "}\n"
  {
    "  " + st.event + " " + st.nextState + " {" + ActionsString(st) + "}\n"
  }

  /** The strings of the sub-transitions, in order (the `map` of `Transition.toString`). */
  function SubTransitionStrings(subs: seq<SubTransition>): (r: seq<string>)
    ensures |r| == |subs| && forall i :: 0 <= i < |subs| ==> r[i] == SubTransitionString(subs[i])
  {
    seq(|subs|, i requires 0 <= i < |subs| => SubTransitionString(subs[i]))
  }

  /** `Transition.toString`: "state {\n", the sub-transition lines, "}\n". */
  function TransitionString(t: Transition): (r: string)
    ensures var head := t.currentState + " {\n";
      |r| >= |head| + 2 && r[..|head|] == head && r[|r| - 2..] == "}\n"
  {
    var head := t.currentState + " {\n";
    var subs := SubTransitionStrings(t.subTransitions);
    ConcatAppend([head] + subs, ["}\n"]);
    ConcatAppend([head], subs);
    assert Concat([head]) == head by {
      assert [head][..0] == [];
    }
    assert Concat(["}\n"]) == "}\n" by {
      assert ["}\n"][..0] == [];
    }
    var body := head + Concat(subs);
    AppendParts(head, Concat(subs));
    PrefixKept(body, "}\n", |head|);
    AppendParts(body, "}\n");
    Concat([head] + subs + ["}\n"])
  }

  /** What `transitionsToString` accumulates: each transition's text, in order. */
  function TransitionsText(ts: seq<Transition>): string
  {
    if ts == [] then "" else TransitionsText(ts[..|ts| - 1]) + TransitionString(ts[|ts| - 1])
  }

  /** `replace(/\n/g, "\n  ")`: every newline followed by two spaces. */
  function Indent(s: string): (r: string)
    ensures |r| >= |s|
  {
    if s == [] then []
    else (if s[0] == '\n' then "\n  " else [s[0]]) + Indent(s[1..])
  }

  /** The inverse of `Indent`: a newline swallows the two spaces after it. */
  function Unindent(s: string): string
  {
    if s == [] then []
    else if s[0] == '\n' && |s| >= 3 && s[1] == ' ' && s[2] == ' ' then "\n" + Unindent(s[3..])
    else [s[0]] + Unindent(s[1..])
  }

  /** `substring(0, length - 2)`: a negative end index counts as 0. */
  function DropLastTwo(s: string): string
  {
    if |s| >= 2 then s[..|s| - 2] else ""
  }

  /** `OptimizedStateMachine.toString` for a given header and transitions text. */
  function MachineText(h: Header, transitions: string): (r: string)
    ensures |r| >= |HeaderText(h)| + 2 && r[..|HeaderText(h)|] == HeaderText(h) && r[|r| - 2..] == "}\n"
  {
    HeaderText(h) + DropLastTwo(Indent(transitions)) + "}\n"
  }

  /** The header lines of `toString`, up to the opening brace and the first indentation. */
  function HeaderText(h: Header): string
  {
    "Initial: " + h.initial + "\nFsm: " + h.fsm + "\nActions:" + h.actions + "\n{\n  "
  }

  /** The state of an `OptimizedStateMachine`, as one value. */
  datatype OptimizedValue = OptimizedValue(
    header: Option<Header>,
    states: seq<string>,
    events: seq<string>,
    actions: seq<string>,
    transitions: seq<Transition>)

  class OptimizedStateMachine {
    var states: seq<string>
    var events: seq<string>
    var actions: seq<string>
    /** Declared with a definite-assignment assertion: unset until the optimizer sets it. */
    var header: Option<Header>
    var transitions: seq<Transition>

    constructor()
      ensures states == [] && events == [] && actions == [] && transitions == [] && header.None?
    {
      states := [];
      events := [];
      actions := [];
      header := None;
      transitions := [];
    }

    function Value(): OptimizedValue
      reads this
    {
      OptimizedValue(header, states, events, actions, transitions)
    }

    /** `transitionsToString`: the texts of the transitions, appended in order. */
    method TransitionsToString() returns (result: string)
      ensures result == TransitionsText(transitions)
    {
      result := "";
      var i := 0;
      while i < |transitions|
        invariant 0 <= i <= |transitions|
        invariant result == TransitionsText(transitions[..i])
      {
        assert transitions[..i + 1][..i] == transitions[..i];
        result := result + TransitionString(transitions[i]);
        i := i + 1;
      }
      assert transitions[..i] == transitions;
    }

    /** `toString`; reading `header` before it is set throws, so it must be set. */
    method ToString() returns (r: string)
      requires header.Some?
      ensures r == MachineText(header.value, TransitionsText(transitions))
    {
      var transitionsString := TransitionsToString();
      transitionsString := Indent(transitionsString);
      transitionsString := DropLastTwo(transitionsString);
      var h := header.value;
      r := "Initial: " + h.initial + "\nFsm: " + h.fsm + "\nActions:" + h.actions + "\n{\n  " + transitionsString + "}\n";
    }
  }

  // ---------------------------------------------------------------------
  // Properties of the renderers

  lemma {:induction false} IndentAppend(a: string, b: string)
    ensures Indent(a + b) == Indent(a) + Indent(b)
  {
    if a != [] {
      assert (a + b)[0] == a[0] && (a + b)[1..] == a[1..] + b;
      IndentAppend(a[1..], b);
    } else {
      assert a + b == b;
    }
  }

  /** Removing the indentation gives the text back. */
  lemma {:induction false} UnindentIndent(s: string)
    ensures Unindent(Indent(s)) == s
  {
    if s != [] {
      UnindentIndent(s[1..]);
      var head := if s[0] == '\n' then "\n  " else [s[0]];
      assert Indent(s) == head + Indent(s[1..]);
      if s[0] == '\n' {
        assert Indent(s)[3..] == Indent(s[1..]);
      } else {
        assert Indent(s)[1..] == Indent(s[1..]);
      }
    }
  }

  /** A newline-terminated text loses exactly the two spaces its last newline gained. */
  lemma IndentDropLastTwo(p: string)
    ensures DropLastTwo(Indent(p + "\n")) == Indent(p) + "\n"
  {
    IndentAppend(p, "\n");
    IndentNewline();
    DropSpaces(Indent(p));
  }

  lemma IndentNewline()
    ensures Indent("\n") == "\n  "
  {
    assert "\n"[1..] == [];
    assert "\n  " + [] == "\n  ";
  }

  lemma DropSpaces(a: string)
    ensures DropLastTwo(a + "\n  ") == a + "\n"
  {
    var t := a + "\n  ";
    assert |t| == |a| + 3;
    assert t[..|t| - 2] == a + "\n";
  }

  lemma ConcatEndsWith(xs: seq<string>, last: string)
    requires |last| > 0
    ensures |Concat(xs + [last])| >= |last| && Concat(xs + [last])[|Concat(xs + [last])| - 1] == last[|last| - 1]
  {
    assert (xs + [last])[..|xs + [last]| - 1] == xs;
  }

  /** A transition's text is the header line, then the sub-transition lines in order, then "}\n". */
  lemma TransitionStringShape(t: Transition)
    ensures TransitionString(t) == t.currentState + " {\n" + Concat(SubTransitionStrings(t.subTransitions)) + "}\n"
    ensures t.subTransitions == [] ==> TransitionString(t) == t.currentState + " {\n}\n"
  {
    var subs := SubTransitionStrings(t.subTransitions);
    ConcatAppend([t.currentState + " {\n"] + subs, ["}\n"]);
    ConcatAppend([t.currentState + " {\n"], subs);
    assert Concat([t.currentState + " {\n"]) == t.currentState + " {\n" by {
      assert [t.currentState + " {\n"][..0] == [];
    }
    assert Concat(["}\n"]) == "}\n" by {
      assert ["}\n"][..0] == [];
    }
    if t.subTransitions == [] {
      assert subs == [];
      assert Concat(subs) == "";
    }
  }

  /** With at least one transition the accumulated text ends in a newline. */
  lemma {:induction false} TransitionsTextEnds(ts: seq<Transition>)
    requires |ts| > 0
    ensures |TransitionsText(ts)| > 0 && TransitionsText(ts)[|TransitionsText(ts)| - 1] == '\n'
  {
    var t := ts[|ts| - 1];
    ConcatEndsWith([t.currentState + " {\n"] + SubTransitionStrings(t.subTransitions), "}\n");
  }

  /**
   * `toString` of a machine with transitions: the header lines, "{", every
   * transition line indented by two spaces, "}".
   */
  lemma MachineTextShape(h: Header, ts: seq<Transition>)
    ensures var text := TransitionsText(ts);
      MachineText(h, text) ==
        if ts == [] then HeaderText(h) + "}\n" else HeaderText(h) + Indent(text[..|text| - 1]) + "\n}\n"
  {
    if ts != [] {
      TransitionsTextEnds(ts);
      MachineTextEndsInNewline(h, TransitionsText(ts));
    } else {
      MachineTextEmpty(h);
    }
  }

  /** A newline-terminated transitions text is indented up to its last newline. */
  lemma MachineTextEndsInNewline(h: Header, text: string)
    requires |text| > 0 && text[|text| - 1] == '\n'
    ensures MachineText(h, text) == HeaderText(h) + Indent(text[..|text| - 1]) + "\n}\n"
  {
    var head := HeaderText(h);
    var p := text[..|text| - 1];
    assert text == p + "\n";
    IndentDropLastTwo(p);
    var body := Indent(p);
    SeqAssoc(head, body + "\n", "}\n");
    SeqAssoc(body, "\n", "}\n");
    SeqAssoc(head, body, "\n}\n");
  }

  lemma MachineTextEmpty(h: Header)
    ensures MachineText(h, "") == HeaderText(h) + "}\n"
  {
    assert DropLastTwo(Indent("")) == "";
    assert HeaderText(h) + "" == HeaderText(h);
  }

  /** The actions string splits back into the actions when none contains a space. */
  lemma ActionsStringSplits(st: SubTransition)
    requires |st.actions| > 0
    requires forall i :: 0 <= i < |st.actions| ==> ' ' !in st.actions[i]
    ensures Split(ActionsString(st), ' ') == st.actions
  {
    SplitJoin(st.actions, ' ');
  }
}
