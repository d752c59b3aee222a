/**
 * The builder DSL for XML nodes. A builder holds the children added so far
 * and the namespaces in scope; a nested node is built by a fresh builder
 * that starts from a copy of the outer one's namespaces. The body of a
 * nested node, a closure in the original, is a script of build steps here.
 */
module XmlBuilder {
  import opened KotlinStd
  import opened XmlNodes

  /** One call made inside a builder body: `xmlNode(...)`, `text(...)` or `parentNamespaces(...)`. */
  datatype BuildStep =
    | NodeStep(name: string, attributes: seq<(string, string)>, body: seq<BuildStep>)
    | TextStep(text: string)
    | NamespacesStep(namespaces: map<string, string>)

  function StepSize(step: BuildStep): nat
    decreases step
  {
    match step
    case NodeStep(_, _, body) => 1 + StepsSize(body)
    case _ => 1
  }

  function StepsSize(steps: seq<BuildStep>): nat
    decreases steps
  {
    if steps == [] then 0 else StepSize(steps[0]) + StepsSize(steps[1..])
  }

  lemma {:induction false} StepSizeBound(steps: seq<BuildStep>, i: nat)
    requires i < |steps|
    ensures StepSize(steps[i]) <= StepsSize(steps)
  {
    if i > 0 {
      StepSizeBound(steps[1..], i - 1);
    }
  }

  predicate AddsEntry(step: BuildStep)
  {
    !step.NamespacesStep?
  }

  /** The children and the namespaces of a builder after it runs the steps. */
  function Build(steps: seq<BuildStep>, nodes: seq<XmlValue>, namespaces: map<string, string>): (seq<XmlValue>, map<string, string>)
    decreases StepsSize(steps), 1
  {
    if steps == [] then (nodes, namespaces)
    else
      var next := Apply(steps[0], nodes, namespaces);
      Build(steps[1..], next.0, next.1)
  }

  /** The effect of one step on a builder's children and namespaces. */
  function Apply(step: BuildStep, nodes: seq<XmlValue>, namespaces: map<string, string>): (seq<XmlValue>, map<string, string>)
    decreases StepSize(step), 0
  {
    match step
    case TextStep(text) => (nodes + [TextValue(text)], namespaces)
    case NamespacesStep(more) => (nodes, namespaces + more)
    case NodeStep(name, attributes, body) =>
      var inner := Build(body, [], namespaces);
      (nodes + [NodeValue(NewXmlNode(name, attributes, inner.0, inner.1))], namespaces)
  }

  /** The namespaces the steps declare at their own level, later declarations winning. */
  function DeclaredNamespaces(steps: seq<BuildStep>): map<string, string>
  {
    if steps == [] then map[]
    else
      var first := if steps[0].NamespacesStep? then steps[0].namespaces else map[];
      first + DeclaredNamespaces(steps[1..])
  }

  /** Running steps only appends to the children already there. */
  lemma {:induction false} BuildAppends(steps: seq<BuildStep>, nodes: seq<XmlValue>, namespaces: map<string, string>)
    ensures Build(steps, nodes, namespaces).0 == nodes + Build(steps, [], namespaces).0
    decreases |steps|
  {
    if steps != [] {
      var next := Apply(steps[0], nodes, namespaces);
      var alone := Apply(steps[0], [], namespaces);
      assert next.0 == nodes + alone.0 && next.1 == alone.1;
      BuildAppends(steps[1..], next.0, next.1);
      BuildAppends(steps[1..], alone.0, alone.1);
    } else {
      assert nodes + [] == nodes;
    }
  }

  /** Each `xmlNode` and `text` call adds exactly one child; `parentNamespaces` adds none. */
  lemma {:induction false} BuildCountsEntries(steps: seq<BuildStep>, nodes: seq<XmlValue>, namespaces: map<string, string>)
    ensures |Build(steps, nodes, namespaces).0| == |nodes| + Count(steps, AddsEntry)
    decreases |steps|
  {
    if steps != [] {
      var next := Apply(steps[0], nodes, namespaces);
      BuildCountsEntries(steps[1..], next.0, next.1);
    }
  }

  /** The namespaces after the steps are those before, overridden by the ones the steps declare. */
  lemma {:induction false} BuildNamespaces(steps: seq<BuildStep>, nodes: seq<XmlValue>, namespaces: map<string, string>)
    ensures Build(steps, nodes, namespaces).1 == namespaces + DeclaredNamespaces(steps)
    decreases |steps|
  {
    if steps != [] {
      var next := Apply(steps[0], nodes, namespaces);
      BuildNamespaces(steps[1..], next.0, next.1);
      var first := if steps[0].NamespacesStep? then steps[0].namespaces else map[];
      assert next.1 == namespaces + first;
      MapPlusAssociative(namespaces, first, DeclaredNamespaces(steps[1..]));
    } else {
      assert namespaces + map[] == namespaces;
    }
  }

  lemma MapPlusAssociative(a: map<string, string>, b: map<string, string>, c: map<string, string>)
    ensures (a + b) + c == a + (b + c)
  {
  }

  /**
   * A nested node sees every namespace in scope where it is built, then the
   * ones its body declares, then its own `xmlns:` attributes.
   */
  lemma NestedNodeNamespaces(name: string, attributes: seq<(string, string)>, body: seq<BuildStep>, nodes: seq<XmlValue>, namespaces: map<string, string>)
    ensures var after := Apply(NodeStep(name, attributes, body), nodes, namespaces);
      && after.1 == namespaces
      && |after.0| == |nodes| + 1
      && after.0[|nodes|].NodeValue?
      && after.0[|nodes|].node.namespaces == namespaces + DeclaredNamespaces(body) + GetNamespaces(attributes)
      && after.0[|nodes|].node.childNodes == Build(body, [], namespaces).0
  {
    BuildNamespaces(body, [], namespaces);
  }

  /**
   * A node's body is built before the node exists, from the namespaces in
   * scope outside it: the node's own attributes, and so its own `xmlns:`
   * declarations, have no effect on its children.
   */
  lemma BodyIgnoresOwnAttributes(name: string, a1: seq<(string, string)>, a2: seq<(string, string)>, body: seq<BuildStep>,
                                 nodes: seq<XmlValue>, namespaces: map<string, string>)
    ensures var n1 := Apply(NodeStep(name, a1, body), nodes, namespaces).0;
      var n2 := Apply(NodeStep(name, a2, body), nodes, namespaces).0;
      |n1| == |n2| == |nodes| + 1 && n1[|nodes|].NodeValue? && n2[|nodes|].NodeValue? &&
      n1[|nodes|].node.childNodes == n2[|nodes|].node.childNodes
  {
    NestedNodeNamespaces(name, a1, body, nodes, namespaces);
    NestedNodeNamespaces(name, a2, body, nodes, namespaces);
  }

  /**
   * The child of a top-level node is built outside the node's scope: it is the
   * node the child's own step makes with no namespaces in scope, whatever the
   * parent's attributes declare.
   */
  lemma OwnDeclarationNotSeenByChild(name: string, attributes: seq<(string, string)>, childName: string, childAttributes: seq<(string, string)>)
    ensures TopLevelNode(name, attributes, [NodeStep(childName, childAttributes, [])]).childNodes ==
      [NodeValue(NewXmlNode(childName, childAttributes, [], map[]))]
  {
    var body := [NodeStep(childName, childAttributes, [])];
    var child := NewXmlNode(childName, childAttributes, [], map[]);
    assert Build([], [], map[]) == ([], map[]);
    assert Apply(body[0], [], map[]) == ([] + [NodeValue(child)], map[]);
    assert [] + [NodeValue(child)] == [NodeValue(child)];
    assert Build(body[1..], [NodeValue(child)], map[]) == ([NodeValue(child)], map[]);
  }

  /**
   * A node made with no namespaces in scope binds only its own declarations,
   * and a prefix it does not declare itself stays unresolved.
   */
  lemma UnscopedNodeUnresolved(childName: string, childAttributes: seq<(string, string)>)
    ensures NewXmlNode(childName, childAttributes, [], map[]).namespaces == GetNamespaces(childAttributes)
    ensures var prefix := NamespacePrefix(childName);
      !IsBlank(prefix) && prefix !in GetNamespaces(childAttributes) ==>
        QName(NewXmlNode(childName, childAttributes, [], map[])) == Thrown(ContractException(UnresolvedPrefixError(prefix)))
  {
    assert map[] + GetNamespaces(childAttributes) == GetNamespaces(childAttributes);
  }

  /** The node built by the top-level `xmlNode` function for a body. */
  function TopLevelNode(name: string, attributes: seq<(string, string)>, body: seq<BuildStep>): XmlNode
  {
    var inner := Build(body, [], map[]);
    NewXmlNode(name, attributes, inner.0, inner.1)
  }

  /** The top-level node binds exactly the prefixes its body and its attributes declare. */
  lemma TopLevelNamespaces(name: string, attributes: seq<(string, string)>, body: seq<BuildStep>)
    ensures TopLevelNode(name, attributes, body).namespaces == DeclaredNamespaces(body) + GetNamespaces(attributes)
    ensures |TopLevelNode(name, attributes, body).childNodes| == Count(body, AddsEntry)
  {
    BuildNamespaces(body, [], map[]);
    assert map[] + DeclaredNamespaces(body) == DeclaredNamespaces(body);
    BuildCountsEntries(body, [], map[]);
  }

  class XmlNodeBuilder {
    var nodes: seq<XmlValue>
    var parentNamespaces: map<string, string>

    /** A builder with no children yet and a copy of the given namespaces. */
    constructor(parentNamespaces: map<string, string>)
      ensures this.nodes == [] && this.parentNamespaces == parentNamespaces
    {
      this.nodes := [];
      this.parentNamespaces := parentNamespaces;
    }

    /** xmlNode: build the body in a nested builder and append the resulting node. */
    method Node(name: string, attributes: seq<(string, string)>, body: seq<BuildStep>)
      modifies this
      ensures nodes == old(nodes) + [NodeValue(NewXmlNode(name, attributes,
        Build(body, [], old(parentNamespaces)).0, Build(body, [], old(parentNamespaces)).1))]
      ensures parentNamespaces == old(parentNamespaces)
      decreases StepsSize(body), 1
    {
      var nodeBuilder := new XmlNodeBuilder(parentNamespaces);
      nodeBuilder.Run(body);
      nodes := nodes + [NodeValue(NewXmlNode(name, attributes, nodeBuilder.nodes, nodeBuilder.parentNamespaces))];
    }

    /** text: append a text child. */
    method Text(text: string)
      modifies this
      ensures nodes == old(nodes) + [TextValue(text)]
      ensures parentNamespaces == old(parentNamespaces)
    {
      nodes := nodes + [TextValue(text)];
    }

    /** parentNamespaces: add the given bindings, overriding existing ones. */
    method ParentNamespaces(namespaces: map<string, string>)
      modifies this
      ensures parentNamespaces == old(parentNamespaces) + namespaces
      ensures old(parentNamespaces).Keys <= parentNamespaces.Keys
      ensures nodes == old(nodes)
    {
      parentNamespaces := parentNamespaces + namespaces;
    }

    /** Run a body: perform its calls in order. */
    method Run(steps: seq<BuildStep>)
      modifies this
      ensures (nodes, parentNamespaces) == Build(steps, old(nodes), old(parentNamespaces))
      decreases StepsSize(steps), 0
    {
      var i := 0;
      while i < |steps|
        invariant 0 <= i <= |steps|
        invariant Build(steps[i..], nodes, parentNamespaces) == Build(steps, old(nodes), old(parentNamespaces))
      {
        assert steps[i..][0] == steps[i] && steps[i..][1..] == steps[i + 1..];
        match steps[i] {
          case TextStep(text) => Text(text);
          case NamespacesStep(more) => ParentNamespaces(more);
          case NodeStep(name, attributes, body) =>
            StepSizeBound(steps, i);
            Node(name, attributes, body);
        }
        i := i + 1;
      }
    }
  }

  /** The top-level `xmlNode` function: run the body in a builder with no namespaces. */
  method BuildXmlNode(name: string, attributes: seq<(string, string)>, body: seq<BuildStep>) returns (node: XmlNode)
    ensures node == TopLevelNode(name, attributes, body)
    ensures |node.childNodes| == Count(body, AddsEntry)
    ensures node.namespaces == DeclaredNamespaces(body) + GetNamespaces(attributes)
  {
    var nodeBuilder := new XmlNodeBuilder(map[]);
    nodeBuilder.Run(body);
    node := NewXmlNode(name, attributes, nodeBuilder.nodes, nodeBuilder.parentNamespaces);
    TopLevelNamespaces(name, attributes, body);
  }
}
