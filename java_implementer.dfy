/**
 * The Java emitter: a visitor over the nested-switch-case tree that appends
 * Java source text to its `output` buffer. `VisitText` is the text one
 * `visit` appends and `AcceptText` the text one `accept` with this visitor
 * appends; the class follows the source and is proved to append exactly that.
 */
module JavaImplementers {
  import opened Wrappers
  import opened Strings
  import opened NSCNodes

  /** JavaScript truthiness of an optional string: present and not empty. */
  predicate Truthy(o: Option<string>)
  {
    o.Some? && o.value != ""
  }

  /** `text` opens with `head` and closes with `tail`. */
  predicate Framed(text: string, head: string, tail: string)
  {
    |text| >= |head| + |tail| && text[..|head|] == head && text[|text| - |tail|..] == tail
  }

  /** A text built as head, middle, tail is framed by head and tail. */
  lemma Frame(head: string, mid: string, tail: string)
    ensures Framed(head + mid + tail, head, tail)
  {
    assert (head + mid + tail)[..|head|] == head;
  }

  const HandleEventOpen: string := "private void handleEvent(Event event) {\n"

  /** The first member of every generated class. */
  const UnhandledLine: string := "public abstract void unhandledTransition(String state, String event);\n"

  /** The setter that follows the state field. */
  const SetStateLine: string := "private void setState(State s) {state = s;}\n"

  /** The default case of every switch. */
  const DefaultCaseLine: string := "default: unhandledTransition(state.name(), event.name()); break;\n"

  /** The delegator method of one event. */
  function DelegatorLine(e: string): string
  {
    "public void " + e + "() {handleEvent(Event." + e + ");}\n"
  }

  /** One delegator method per event, in order: no events, no text. */
  function DelegatorsText(events: seq<string>): (r: string)
    ensures |r| >= |events| && (r == "" <==> events == [])
  {
    if events == [] then ""
    else DelegatorsText(events[..|events| - 1]) + DelegatorLine(events[|events| - 1])
  }

  /** The abstract method of one action. */
  function AbstractLine(a: string): string
  {
    "protected abstract void " + a + "();\n"
  }

  /** One abstract method per action, in order: no actions, no text. */
  function AbstractsText(actions: seq<string>): (r: string)
    ensures |r| >= |actions| && (r == "" <==> actions == [])
  {
    if actions == [] then ""
    else AbstractsText(actions[..|actions| - 1]) + AbstractLine(actions[|actions| - 1])
  }

  /** The package line, when there is a package. */
  function PackageText(javaPackage: Option<string>): (r: string)
    ensures r != "" <==> Truthy(javaPackage)
    ensures Truthy(javaPackage) ==> Framed(r, "package " + javaPackage.value, ";\n")
  {
    Frame("package " + javaPackage.GetOr(""), "", ";\n");
    if Truthy(javaPackage) then "package " + javaPackage.value + ";\n" else ""
  }

  const ClassOpen: string := "public abstract class "

  /** The class line: the class name, the actions interface it implements if one is named, the brace. */
  function ClassLine(className: Option<string>, actionsName: Option<string>): (r: string)
    ensures Framed(r, ClassOpen + NullableText(className), " {\n")
    ensures Truthy(actionsName) <==> |r| > |ClassOpen + NullableText(className) + " {\n"|
  {
    var implements := if Truthy(actionsName) then " implements " + actionsName.value else "";
    assert (if Truthy(actionsName) then " implements " + actionsName.value + " {\n" else " {\n") == implements + " {\n";
    Frame(ClassOpen + NullableText(className), implements, " {\n");
    ClassOpen + NullableText(className) +
      (if Truthy(actionsName) then " implements " + actionsName.value + " {\n" else " {\n")
  }

  /** The opening of the class: the package line when there is a package, then the class line. */
  function ClassHead(javaPackage: Option<string>, className: Option<string>, actionsName: Option<string>): string
  {
    PackageText(javaPackage) + ClassLine(className, actionsName)
  }

  /** The text `visit(node)` appends. A composite matches no branch and appends nothing. */
  function VisitText(javaPackage: Option<string>, n: NSCNode): (r: string)
    ensures n.Composite? ==> r == ""
    ensures n.FSMClassNode? || n.SwitchCaseNode? || n.HandleEventNode? ==> |r| >= 2 && r[|r| - 2..] == "}\n"
    decreases n, 1
  {
    match n
    case SwitchCaseNode(v, cases) => SwitchText(javaPackage, n)
    case CaseNode(_, c, act) => CaseText(javaPackage, n)
    case FunctionCallNode(f, arg) => CallText(javaPackage, n)
    case Composite(_) => ""
    case EnumNode(name, es) => "private enum " + name + " {" + Join(es, ",") + "}\n"
    case StatePropertyNode(i) => "private State state = State." + i + ";\n" + SetStateLine
    case EventDelegatorsNode(es) => DelegatorsText(es)
    case FSMClassNode(_, _, _, _, _, _, _, _) => FSMClassText(javaPackage, n)
    case HandleEventNode(sc) => HandleEventText(javaPackage, n)
    case EnumeratorNode(e, v) => e + "." + v
    case DefaultCaseNode(_) => DefaultCaseLine
  }

  /** A switch: "switch(v) {", its cases, "}". */
  function SwitchText(javaPackage: Option<string>, n: NSCNode): (r: string)
    requires n.SwitchCaseNode?
    ensures Framed(r, "switch(" + n.variableName + ") {\n", "}\n")
    decreases n, 0
  {
    Frame("switch(" + n.variableName + ") {\n", AcceptAllText(javaPackage, n.caseNodes), "}\n");
    "switch(" + n.variableName + ") {\n" + AcceptAllText(javaPackage, n.caseNodes) + "}\n"
  }

  /** A case: "case X:", its action node if any, "break;". */
  function CaseText(javaPackage: Option<string>, n: NSCNode): (r: string)
    requires n.CaseNode?
    ensures Framed(r, "case " + n.caseName + ":\n", "break;\n")
    decreases n, 0
  {
    var act := n.caseActionNode;
    Frame("case " + n.caseName + ":\n", OptionalText(javaPackage, act), "break;\n");
    "case " + n.caseName + ":\n" + OptionalText(javaPackage, act) + "break;\n"
  }

  /** A call: "name(", its argument if any, ");". */
  function CallText(javaPackage: Option<string>, n: NSCNode): (r: string)
    requires n.FunctionCallNode?
    ensures Framed(r, n.functionName + "(", ");\n")
    decreases n, 0
  {
    var arg := n.argument;
    Frame(n.functionName + "(", OptionalText(javaPackage, arg), ");\n");
    n.functionName + "(" + OptionalText(javaPackage, arg) + ");\n"
  }

  /** The `handleEvent` method wrapping the switch. */
  function HandleEventText(javaPackage: Option<string>, n: NSCNode): (r: string)
    requires n.HandleEventNode?
    ensures Framed(r, HandleEventOpen, "}\n")
    decreases n, 0
  {
    Frame(HandleEventOpen, AcceptText(javaPackage, n.switchCase), "}\n");
    HandleEventOpen + AcceptText(javaPackage, n.switchCase) + "}\n"
  }

  /** The class: head, then the rest; it ends with the class's closing brace. */
  function FSMClassText(javaPackage: Option<string>, n: NSCNode): (r: string)
    requires n.FSMClassNode?
    ensures |r| >= 2 && r[|r| - 2..] == "}\n"
    decreases n, 0, 2
  {
    ClassHead(javaPackage, n.className, n.actionsName) + ClassRest(javaPackage, n)
  }

  /** After the head: the body, the abstract actions unless an actions interface is named, "}". */
  function ClassRest(javaPackage: Option<string>, n: NSCNode): string
    requires n.FSMClassNode?
    decreases n, 0, 1
  {
    ClassBodyText(javaPackage, n) + (if Truthy(n.actionsName) then "" else AbstractsText(n.actions)) + "}\n"
  }

  /** The class body up to the abstract actions: unhandledTransition, state enum, event enum, state property, delegators, handleEvent. */
  function ClassBodyText(javaPackage: Option<string>, n: NSCNode): string
    requires n.FSMClassNode?
    decreases n, 0, 0
  {
    UnhandledLine +
    OptionalText(javaPackage, n.stateEnum) +
    OptionalText(javaPackage, n.eventEnum) +
    OptionalText(javaPackage, n.stateProperty) +
    OptionalText(javaPackage, n.delegators) +
    OptionalText(javaPackage, n.handleEvent)
  }

  /** `node?.accept(visitor)`: nothing for an absent node. */
  function OptionalText(javaPackage: Option<string>, o: Option<NSCNode>): string
    decreases o, 0
  {
    if o.Some? then AcceptText(javaPackage, o.value) else ""
  }

  /** The text `node.accept(visitor)` appends. */
  function AcceptText(javaPackage: Option<string>, n: NSCNode): string
    decreases n, 2
  {
    if n.Composite? then AcceptAllText(javaPackage, n.nodes) else VisitText(javaPackage, n)
  }

  /** The text of `accept` on each node of `ns` in turn. */
  function AcceptAllText(javaPackage: Option<string>, ns: seq<NSCNode>): string
    decreases ns, 3
  {
    if ns == [] then "" else AcceptAllText(javaPackage, ns[..|ns| - 1]) + AcceptText(javaPackage, ns[|ns| - 1])
  }

  /** The texts of `visit` for each node of `ns`, in order. */
  function VisitsText(javaPackage: Option<string>, ns: seq<NSCNode>): string
  {
    if ns == [] then "" else VisitsText(javaPackage, ns[..|ns| - 1]) + VisitText(javaPackage, ns[|ns| - 1])
  }

  class JavaNestedSwitchCaseImplementer {
    var output: string
    const flags: map<string, string>
    const javaPackage: Option<string>

    /** The package comes from the "package" flag when there is one. */
    constructor(flags: map<string, string>)
      ensures output == "" && this.flags == flags
      ensures javaPackage == if "package" in flags then Some(flags["package"]) else None
    {
      output := "";
      this.flags := flags;
      javaPackage := if "package" in flags then Some(flags["package"]) else None;
    }

    /** `visit`: appends the node's text and nothing else. */
    method Visit(node: NSCNode)
      modifies this
      ensures output == old(output) + VisitText(javaPackage, node)
      decreases node, 1
    {
      match node
      case SwitchCaseNode(v, cases) =>
        VisitSwitchCase(node);
      case CaseNode(_, c, act) =>
        VisitCase(node);
      case FunctionCallNode(f, arg) =>
        VisitFunctionCall(node);
      case Composite(_) =>
      case EnumNode(name, es) =>
        VisitEnum(node);
      case StatePropertyNode(i) =>
        VisitStateProperty(node);
      case EventDelegatorsNode(es) =>
        VisitDelegators(es);
      case FSMClassNode(_, _, _, _, _, _, _, _) =>
        VisitFSMClass(node);
      case HandleEventNode(sc) =>
        VisitHandleEvent(node);
      case EnumeratorNode(e, v) =>
        VisitEnumerator(node);
      case DefaultCaseNode(_) =>
        output := output + DefaultCaseLine;
    }

    /** The `EnumNode` branch of `visit`. */
    method VisitEnum(node: NSCNode)
      requires node.EnumNode?
      modifies this
      ensures output == old(output) + VisitText(javaPackage, node)
    {
      output := output + "private enum " + node.name + " {" + Join(node.enumerators, ",") + "}\n";
    }

    /** The `StatePropertyNode` branch of `visit`: the state field, then its setter. */
    method VisitStateProperty(node: NSCNode)
      requires node.StatePropertyNode?
      modifies this
      ensures output == old(output) + VisitText(javaPackage, node)
    {
      output := output + "private State state = State." + node.initialState + ";\n";
      SeqAssoc(old(output), "private State state = State." + node.initialState + ";\n", SetStateLine);
      output := output + SetStateLine;
    }

    /** The `EnumeratorNode` branch of `visit`. */
    method VisitEnumerator(node: NSCNode)
      requires node.EnumeratorNode?
      modifies this
      ensures output == old(output) + VisitText(javaPackage, node)
    {
      output := output + node.enumeration + "." + node.enumerator;
    }

    /** The `SwitchCaseNode` branch of `visit`. */
    method VisitSwitchCase(node: NSCNode)
      requires node.SwitchCaseNode?
      modifies this
      ensures output == old(output) + SwitchText(javaPackage, node)
      decreases node, 0, 1
    {
      output := output + "switch(" + node.variableName + ") {\n";
      GenerateCases(node);
      output := output + "}\n";
    }

    /** The `CaseNode` branch of `visit`. */
    method VisitCase(node: NSCNode)
      requires node.CaseNode?
      modifies this
      ensures output == old(output) + CaseText(javaPackage, node)
      decreases node, 0
    {
      output := output + "case " + node.caseName + ":\n";
      AcceptOptional(node.caseActionNode);
      output := output + "break;\n";
    }

    /** The `FunctionCallNode` branch of `visit`. */
    method VisitFunctionCall(node: NSCNode)
      requires node.FunctionCallNode?
      modifies this
      ensures output == old(output) + CallText(javaPackage, node)
      decreases node, 0
    {
      output := output + node.functionName + "(";
      AcceptOptional(node.argument);
      output := output + ");\n";
    }

    /** The `HandleEventNode` branch of `visit`. */
    method VisitHandleEvent(node: NSCNode)
      requires node.HandleEventNode?
      modifies this
      ensures output == old(output) + HandleEventText(javaPackage, node)
      decreases node, 0
    {
      output := output + "private void handleEvent(Event event) {\n";
      Accept(node.switchCase);
      output := output + "}\n";
    }

    /** The `FSMClassNode` branch of `visit`: head, body parts in order, abstracts, "}". */
    method VisitFSMClass(node: NSCNode)
      requires node.FSMClassNode?
      modifies this
      ensures output == old(output) + FSMClassText(javaPackage, node)
      decreases node, 0, 1
    {
      ghost var start := output;
      VisitClassHead(node);
      ghost var mid := output;
      var actionsName := node.actionsName;
      VisitClassBody(node);
      if !Truthy(actionsName) {
        VisitAbstracts(node.actions);
      }
      ghost var body := ClassBodyText(javaPackage, node);
      SeqAssoc(mid, body, if Truthy(actionsName) then "" else AbstractsText(node.actions));
      output := output + "}\n";
      SeqAssoc(mid, body + (if Truthy(actionsName) then "" else AbstractsText(node.actions)), "}\n");
      SeqAssoc(start, ClassHead(javaPackage, node.className, actionsName), ClassRest(javaPackage, node));
    }

    /** The start of the `FSMClassNode` branch: the package line if any, then the class line. */
    method VisitClassHead(node: NSCNode)
      requires node.FSMClassNode?
      modifies this
      ensures output == old(output) + ClassHead(javaPackage, node.className, node.actionsName)
    {
      if Truthy(javaPackage) {
        output := output + "package " + javaPackage.value + ";\n";
      }
      output := output + ClassLine(node.className, node.actionsName);
      SeqAssoc(old(output), PackageText(javaPackage), ClassLine(node.className, node.actionsName));
    }

    /** The middle of the `FSMClassNode` branch: unhandledTransition, then each present part. */
    method VisitClassBody(node: NSCNode)
      requires node.FSMClassNode?
      modifies this
      ensures output == old(output) + ClassBodyText(javaPackage, node)
      decreases node, 0, 0
    {
      ghost var start := output;
      output := output + UnhandledLine;
      ghost var body := UnhandledLine;
      AcceptOptional(node.stateEnum);
      SeqAssoc(start, body, OptionalText(javaPackage, node.stateEnum));
      body := body + OptionalText(javaPackage, node.stateEnum);
      AcceptOptional(node.eventEnum);
      SeqAssoc(start, body, OptionalText(javaPackage, node.eventEnum));
      body := body + OptionalText(javaPackage, node.eventEnum);
      AcceptOptional(node.stateProperty);
      SeqAssoc(start, body, OptionalText(javaPackage, node.stateProperty));
      body := body + OptionalText(javaPackage, node.stateProperty);
      AcceptOptional(node.delegators);
      SeqAssoc(start, body, OptionalText(javaPackage, node.delegators));
      body := body + OptionalText(javaPackage, node.delegators);
      AcceptOptional(node.handleEvent);
      SeqAssoc(start, body, OptionalText(javaPackage, node.handleEvent));
    }

    /** The delegator loop: one method per event, in order. */
    method VisitDelegators(events: seq<string>)
      modifies this
      ensures output == old(output) + DelegatorsText(events)
    {
      var i := 0;
      while i < |events|
        invariant i <= |events|
        invariant output == old(output) + DelegatorsText(events[..i])
      {
        assert events[..i + 1][..i] == events[..i];
        SeqAssoc(old(output), DelegatorsText(events[..i]), DelegatorLine(events[i]));
        output := output + DelegatorLine(events[i]);
        i := i + 1;
      }
      assert events[..i] == events;
    }

    /** The abstract-action loop: one method per action, in order. */
    method VisitAbstracts(actions: seq<string>)
      modifies this
      ensures output == old(output) + AbstractsText(actions)
    {
      var i := 0;
      while i < |actions|
        invariant i <= |actions|
        invariant output == old(output) + AbstractsText(actions[..i])
      {
        assert actions[..i + 1][..i] == actions[..i];
        SeqAssoc(old(output), AbstractsText(actions[..i]), AbstractLine(actions[i]));
        output := output + AbstractLine(actions[i]);
        i := i + 1;
      }
      assert actions[..i] == actions;
    }

    /** `node?.accept(this)`. */
    method AcceptOptional(o: Option<NSCNode>)
      modifies this
      ensures output == old(output) + OptionalText(javaPackage, o)
      decreases o, 0
    {
      if o.Some? {
        Accept(o.value);
      }
    }

    /** `node.accept(this)`: a composite forwards to its children, any other node is visited. */
    method Accept(node: NSCNode)
      modifies this
      ensures output == old(output) + AcceptText(javaPackage, node)
      decreases node, 2
    {
      if node.Composite? {
        AcceptAll(node.nodes);
      } else {
        Visit(node);
      }
    }

    /** `generateCases` with this visitor: `accept` on each case node. */
    method GenerateCases(node: NSCNode)
      requires node.SwitchCaseNode?
      modifies this
      ensures output == old(output) + AcceptAllText(javaPackage, node.caseNodes)
      decreases node, 0, 0
    {
      AcceptAll(node.caseNodes);
    }

    /** `accept` on each node of `ns` in turn. */
    method AcceptAll(ns: seq<NSCNode>)
      modifies this
      ensures output == old(output) + AcceptAllText(javaPackage, ns)
      decreases ns, 3
    {
      var i := 0;
      while i < |ns|
        invariant i <= |ns|
        invariant output == old(output) + AcceptAllText(javaPackage, ns[..i])
      {
        Accept(ns[i]);
        assert ns[..i + 1][..i] == ns[..i];
        assert AcceptAllText(javaPackage, ns[..i + 1]) == AcceptAllText(javaPackage, ns[..i]) + AcceptText(javaPackage, ns[i]);
        SeqAssoc(old(output), AcceptAllText(javaPackage, ns[..i]), AcceptText(javaPackage, ns[i]));
        i := i + 1;
      }
      assert ns[..i] == ns;
    }

    /** `getOutput`: everything appended since construction. */
    method GetOutput() returns (r: string)
      ensures r == output
    {
      r := output;
    }
  }

  // ---------------------------------------------------------------------
  // Properties of the emitted text

  /** What `accept` appends is what `visit` appends for each node the tree hands to the visitor. */
  lemma {:induction false} AcceptTextIsVisits(javaPackage: Option<string>, n: NSCNode)
    ensures AcceptText(javaPackage, n) == VisitsText(javaPackage, Accept(n))
    decreases n, 1
  {
    if n.Composite? {
      AcceptAllTextIsVisits(javaPackage, n.nodes);
    } else {
      assert [n][..0] == [];
    }
  }

  lemma {:induction false} AcceptAllTextIsVisits(javaPackage: Option<string>, ns: seq<NSCNode>)
    ensures AcceptAllText(javaPackage, ns) == VisitsText(javaPackage, AcceptAll(ns))
    decreases ns, 0
  {
    if ns != [] {
      AcceptAllTextIsVisits(javaPackage, ns[..|ns| - 1]);
      AcceptTextIsVisits(javaPackage, ns[|ns| - 1]);
      VisitsTextAppend(javaPackage, AcceptAll(ns[..|ns| - 1]), Accept(ns[|ns| - 1]));
    }
  }

  lemma {:induction false} VisitsTextAppend(javaPackage: Option<string>, a: seq<NSCNode>, b: seq<NSCNode>)
    ensures VisitsText(javaPackage, a + b) == VisitsText(javaPackage, a) + VisitsText(javaPackage, b)
    decreases |b|
  {
    if b == [] {
      assert a + b == a;
    } else {
      var n := |b| - 1;
      VisitsTextAppend(javaPackage, a, b[..n]);
      assert (a + b)[..|a + b| - 1] == a + b[..n] && (a + b)[|a + b| - 1] == b[n];
      SeqAssoc(VisitsText(javaPackage, a), VisitsText(javaPackage, b[..n]), VisitText(javaPackage, b[n]));
    }
  }

  /** Delegators for two runs of events are the delegators of each run in turn. */
  lemma {:induction false} DelegatorsAppend(a: seq<string>, b: seq<string>)
    ensures DelegatorsText(a + b) == DelegatorsText(a) + DelegatorsText(b)
    decreases |b|
  {
    if b == [] {
      assert a + b == a;
    } else {
      var n := |b| - 1;
      DelegatorsAppend(a, b[..n]);
      assert (a + b)[..|a + b| - 1] == a + b[..n] && (a + b)[|a + b| - 1] == b[n];
      assert DelegatorsText(a + b) == DelegatorsText(a + b[..n]) + DelegatorLine(b[n]);
      assert DelegatorsText(b) == DelegatorsText(b[..n]) + DelegatorLine(b[n]);
      SeqAssoc(DelegatorsText(a), DelegatorsText(b[..n]), DelegatorLine(b[n]));
    }
  }

  /** Each event has its own delegator line: the text is the lines of the events, one after another. */
  lemma {:induction false} DelegatorLines(events: seq<string>)
    ensures DelegatorsText(events) == Concat(seq(|events|, i requires 0 <= i < |events| => DelegatorLine(events[i])))
  {
    var lines := seq(|events|, i requires 0 <= i < |events| => DelegatorLine(events[i]));
    if events != [] {
      var n := |events| - 1;
      DelegatorLines(events[..n]);
      assert lines[..n] == seq(n, i requires 0 <= i < n => DelegatorLine(events[..n][i]));
    }
  }

  /** Each action has its own abstract-method line, in order. */
  lemma {:induction false} AbstractLines(actions: seq<string>)
    ensures AbstractsText(actions) ==
      Concat(seq(|actions|, i requires 0 <= i < |actions| => AbstractLine(actions[i])))
  {
    var lines := seq(|actions|, i requires 0 <= i < |actions| => AbstractLine(actions[i]));
    if actions != [] {
      var n := |actions| - 1;
      AbstractLines(actions[..n]);
      assert lines[..n] == seq(n, i requires 0 <= i < n => AbstractLine(actions[..n][i]));
    }
  }

  /**
   * The class text starts with "package p;" exactly when a non-empty package
   * was given; otherwise it starts with the class line.
   */
  lemma PackageLine(javaPackage: Option<string>, n: NSCNode)
    requires n.FSMClassNode?
    ensures var text := FSMClassText(javaPackage, n);
      var line := "package " + javaPackage.GetOr("") + ";\n";
      (Truthy(javaPackage) ==> |text| >= |line| && text[..|line|] == line) &&
      (!Truthy(javaPackage) ==> |text| >= |ClassOpen| && text[..|ClassOpen|] == ClassOpen)
  {
    var pkg := PackageText(javaPackage);
    var classLine := ClassLine(n.className, n.actionsName);
    var rest := ClassRest(javaPackage, n);
    SeqAssoc(pkg, classLine, rest);
    if Truthy(javaPackage) {
      PrefixOfAppend(pkg, classLine + rest);
    } else {
      assert pkg + (classLine + rest) == classLine + rest;
      var tail := classLine[|ClassOpen|..];
      assert classLine == ClassOpen + tail;
      SeqAssoc(ClassOpen, tail, rest);
      PrefixOfAppend(ClassOpen, tail + rest);
    }
  }

  /** A text starts with its first part. */
  lemma PrefixOfAppend(a: string, b: string)
    ensures |a + b| >= |a| && (a + b)[..|a|] == a
  {
  }

  /**
   * With an actions interface the class implements it and the actions are
   * not emitted; without one each action becomes an abstract method just
   * before the closing brace.
   */
  lemma ActionsChoice(javaPackage: Option<string>, n: NSCNode)
    requires n.FSMClassNode?
    ensures var bare := FSMClassText(javaPackage, n.(actions := []));
      (Truthy(n.actionsName) ==> FSMClassText(javaPackage, n) == bare) &&
      (!Truthy(n.actionsName) ==>
        |bare| >= 2 && FSMClassText(javaPackage, n) == bare[..|bare| - 2] + AbstractsText(n.actions) + "}\n")
  {
    var bareNode := n.(actions := []);
    var h := ClassHead(javaPackage, n.className, n.actionsName);
    var b := ClassBodyText(javaPackage, n);
    assert ClassBodyText(javaPackage, bareNode) == b;
    assert b + "" == b;
    assert ClassRest(javaPackage, bareNode) == b + "}\n";
    if !Truthy(n.actionsName) {
      var a := AbstractsText(n.actions);
      var bare := h + (b + "}\n");
      SeqAssoc(h, b, "}\n");
      assert bare[..|bare| - 2] == h + b;
      SeqAssoc(h, b, a);
      SeqAssoc(h, b + a, "}\n");
    }
  }
}
