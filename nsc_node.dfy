/**
 * The nested-switch-case tree the generators build and the emitters walk.
 * Each node kind is a constructor of one datatype; `CompositeNode`, the one
 * node the source grows in place, is also a class whose `Add` appends.
 *
 * `accept` on a node hands nodes to the visitor's `visit`; the sequence of
 * nodes it hands over is `Accept`, so what any visitor sees is fixed by the
 * tree alone.
 */
module NSCNodes {
  import opened Wrappers
  import opened Strings

  datatype NSCNode =
    | SwitchCaseNode(variableName: string, caseNodes: seq<NSCNode>)
    | CaseNode(switchName: string, caseName: string, caseActionNode: Option<NSCNode>)
    | FunctionCallNode(functionName: string, argument: Option<NSCNode>)
    | Composite(nodes: seq<NSCNode>)
    | EnumNode(name: string, enumerators: seq<string>)
    | StatePropertyNode(initialState: string)
    | EventDelegatorsNode(events: seq<string>)
    | FSMClassNode(
        delegators: Option<NSCNode>,
        eventEnum: Option<NSCNode>,
        stateEnum: Option<NSCNode>,
        stateProperty: Option<NSCNode>,
        handleEvent: Option<NSCNode>,
        className: Option<string>,
        actionsName: Option<string>,
        actions: seq<string>)
    | HandleEventNode(switchCase: NSCNode)
    | EnumeratorNode(enumeration: string, enumerator: string)
    | DefaultCaseNode(state: string)

  /** `new SwitchCaseNode(v)`: no cases yet. */
  function NewSwitchCaseNode(variableName: string): (n: NSCNode)
    ensures n.SwitchCaseNode? && n.variableName == variableName && n.caseNodes == []
  {
    SwitchCaseNode(variableName, [])
  }

  /** `new CaseNode(s, c)`: no action node yet. */
  function NewCaseNode(switchName: string, caseName: string): (n: NSCNode)
    ensures n.CaseNode? && n.switchName == switchName && n.caseName == caseName && n.caseActionNode.None?
  {
    CaseNode(switchName, caseName, None)
  }

  /** `new FSMClassNode()`: every part null, no actions. */
  function NewFSMClassNode(): (n: NSCNode)
    ensures n.FSMClassNode? && n.actions == []
    ensures n.delegators.None? && n.eventEnum.None? && n.stateEnum.None? && n.stateProperty.None?
    ensures n.handleEvent.None? && n.className.None? && n.actionsName.None?
  {
    FSMClassNode(None, None, None, None, None, None, None, [])
  }

  /**
   * The nodes `accept` passes to `visitor.visit`, in call order: a composite
   * forwards to its children, every other node passes itself. A visitor is
   * never handed a composite.
   */
  function Accept(n: NSCNode): (r: seq<NSCNode>)
    decreases n, 1
    ensures forall i :: 0 <= i < |r| ==> !r[i].Composite?
    ensures !n.Composite? ==> r == [n]
  {
    if n.Composite? then AcceptAll(n.nodes) else [n]
  }

  /** `accept` on each node of `ns` in turn: the loop of `CompositeNode.accept` and of `generateCases`. */
  function AcceptAll(ns: seq<NSCNode>): (r: seq<NSCNode>)
    decreases ns, 0
    ensures forall i :: 0 <= i < |r| ==> !r[i].Composite?
    ensures |r| >= |ns| - CompositeCount(ns)
  {
    if ns == [] then [] else AcceptAll(ns[..|ns| - 1]) + Accept(ns[|ns| - 1])
  }

  /** How many of `ns` are composites. */
  function CompositeCount(ns: seq<NSCNode>): nat
  {
    if ns == [] then 0 else CompositeCount(ns[..|ns| - 1]) + (if ns[|ns| - 1].Composite? then 1 else 0)
  }

  /** `SwitchCaseNode.generateCases`: `accept` on each case node, in list order. */
  function GenerateCases(n: NSCNode): seq<NSCNode>
    requires n.SwitchCaseNode?
  {
    AcceptAll(n.caseNodes)
  }

  /** Visiting two runs of nodes in turn is visiting their concatenation. */
  lemma {:induction false} AcceptAllAppend(a: seq<NSCNode>, b: seq<NSCNode>)
    ensures AcceptAll(a + b) == AcceptAll(a) + AcceptAll(b)
    decreases |b|
  {
    if b == [] {
      assert a + b == a;
    } else {
      var init := b[..|b| - 1];
      AcceptAllAppend(a, init);
      assert (a + b)[..|a + b| - 1] == a + init;
      assert (a + b)[|a + b| - 1] == b[|b| - 1];
      SeqAssoc(AcceptAll(a), AcceptAll(init), Accept(b[|b| - 1]));
    }
  }

  /** A composite holding composites visits the same nodes as one holding their children directly. */
  lemma {:induction false} AcceptAllFlatten(ns: seq<NSCNode>, i: nat)
    requires i < |ns| && ns[i].Composite?
    ensures AcceptAll(ns) == AcceptAll(ns[..i] + ns[i].nodes + ns[i + 1..])
  {
    assert ns == ns[..i] + [ns[i]] + ns[i + 1..];
    AcceptAllAppend(ns[..i] + [ns[i]], ns[i + 1..]);
    AcceptAllAppend(ns[..i], [ns[i]]);
    assert AcceptAll([ns[i]]) == Accept(ns[i]) by {
      assert [ns[i]][..0] == [];
    }
    AcceptAllAppend(ns[..i] + ns[i].nodes, ns[i + 1..]);
    AcceptAllAppend(ns[..i], ns[i].nodes);
  }

  /** `CompositeNode`: children in insertion order. */
  class CompositeNode {
    var nodes: seq<NSCNode>

    constructor()
      ensures nodes == []
    {
      nodes := [];
    }

    /** The tree node this object stands for at this moment. */
    function Node(): NSCNode
      reads this
    {
      Composite(nodes)
    }

    /** `add`: the node goes to the end, so it is visited after every earlier child. */
    method Add(node: NSCNode)
      modifies this
      ensures nodes == old(nodes) + [node]
      ensures Accept(Node()) == Accept(old(Node())) + Accept(node)
    {
      nodes := nodes + [node];
      assert nodes[..|nodes| - 1] == old(nodes);
    }
  }
}
