/**
 * XML nodes as values: names split into a namespace prefix and a local
 * name, `xmlns:` declarations inherited from parent to child, prefix
 * resolution, lookups of children by name and by dotted path, attribute
 * lookups, and the compact rendering of a node as text.
 */
module XmlNodes {
  import opened KotlinStd
  import Results

  /** A child of a node: text or another node. */
  datatype XmlValue = TextValue(text: string) | NodeValue(node: XmlNode)

  /**
   * A node. Attributes keep their insertion order; namespaces map each
   * bound prefix to its URI.
   */
  datatype XmlNode = XmlNode(
    name: string,
    realName: string,
    attributes: seq<(string, string)>,
    childNodes: seq<XmlValue>,
    namespacePrefix: string,
    namespaces: map<string, string>)

  const XmlnsPrefix: string := "xmlns:"

  // ---------------------------------------------------------------------
  // Names

  /** namespacePrefix: the text before the first ':', or "" when there is none. */
  function NamespacePrefix(realName: string): (p: string)
    ensures ':' !in realName ==> p == ""
    ensures ':' in realName ==> p == realName[..IndexOf(realName, ':')]
    ensures ':' !in p
  {
    var parts := SplitOn(realName, ':');
    if |parts| == 1 then ""
    else
      SplitOnFirst(realName, ':');
      parts[0]
  }

  /** withoutNamespacePrefix: the text after the first ':', or the whole name. */
  function WithoutNamespacePrefix(realName: string): string
  {
    SubstringAfter(realName, ':')
  }

  /** A prefixed name is its prefix, a ':' and its local name. */
  lemma PrefixedNameSplits(realName: string)
    requires ':' in realName
    ensures NamespacePrefix(realName) + ":" + WithoutNamespacePrefix(realName) == realName
  {
  }

  /** Joining a prefix without ':' to a local name and splitting again gives both back. */
  lemma QualifiedNameRoundTrip(prefix: string, local: string)
    requires ':' !in prefix
    ensures NamespacePrefix(prefix + ":" + local) == prefix
    ensures WithoutNamespacePrefix(prefix + ":" + local) == local
  {
    IndexOfAfter(prefix, ':', local);
    var s := prefix + ":" + local;
    assert s == prefix + [':'] + local;
    assert s[..|prefix|] == prefix;
    assert s[|prefix| + 1..] == local;
  }

  /** An unprefixed name is its own local name. */
  lemma UnprefixedName(realName: string)
    requires ':' !in realName
    ensures NamespacePrefix(realName) == "" && WithoutNamespacePrefix(realName) == realName
  {
  }

  // ---------------------------------------------------------------------
  // Attributes and namespace declarations

  /** The value of an attribute; a later entry wins, as it does when a map is built from the list. */
  function Lookup(attributes: seq<(string, string)>, key: string): (r: Option<string>)
    ensures r.None? <==> forall i :: 0 <= i < |attributes| ==> attributes[i].0 != key
    ensures r.Some? ==> exists i :: 0 <= i < |attributes| && attributes[i] == (key, r.value)
  {
    if attributes == [] then None
    else if attributes[|attributes| - 1].0 == key then Some(attributes[|attributes| - 1].1)
    else
      var r := Lookup(attributes[..|attributes| - 1], key);
      assert forall i :: 0 <= i < |attributes| - 1 ==> attributes[..|attributes| - 1][i] == attributes[i];
      r
  }

  /** getNamespaces: the `xmlns:` declarations among the attributes, with the prefix stripped. */
  function GetNamespaces(attributes: seq<(string, string)>): (ns: map<string, string>)
    ensures forall p :: p in ns <==> Lookup(attributes, XmlnsPrefix + p).Some?
    ensures forall p :: p in ns ==> ns[p] == Lookup(attributes, XmlnsPrefix + p).value
  {
    if attributes == [] then map[]
    else
      var (key, value) := attributes[|attributes| - 1];
      var earlier := GetNamespaces(attributes[..|attributes| - 1]);
      assert forall p :: StartsWith(key, XmlnsPrefix) && RemovePrefix(key, XmlnsPrefix) == p <==> key == XmlnsPrefix + p;
      if StartsWith(key, XmlnsPrefix) then earlier[RemovePrefix(key, XmlnsPrefix) := value] else earlier
  }

  /** The secondary constructor: name and prefix from the real name, namespaces from the parent and the node's own declarations. */
  function NewXmlNode(realName: string, attributes: seq<(string, string)>, childNodes: seq<XmlValue>, parentNamespaces: map<string, string>): (node: XmlNode)
    ensures node.realName == realName && node.attributes == attributes && node.childNodes == childNodes
    ensures node.name == WithoutNamespacePrefix(realName) && node.namespacePrefix == NamespacePrefix(realName)
  {
    XmlNode(WithoutNamespacePrefix(realName), realName, attributes, childNodes, NamespacePrefix(realName),
            parentNamespaces + GetNamespaces(attributes))
  }

  /** A node's own declarations override its parent's; every other parent binding is inherited. */
  lemma NewXmlNodeNamespaces(realName: string, attributes: seq<(string, string)>, childNodes: seq<XmlValue>, parentNamespaces: map<string, string>, p: string)
    ensures var ns := NewXmlNode(realName, attributes, childNodes, parentNamespaces).namespaces;
      && (Lookup(attributes, XmlnsPrefix + p).Some? ==> p in ns && ns[p] == Lookup(attributes, XmlnsPrefix + p).value)
      && (Lookup(attributes, XmlnsPrefix + p).None? ==> (p in ns <==> p in parentNamespaces))
      && (Lookup(attributes, XmlnsPrefix + p).None? && p in parentNamespaces ==> ns[p] == parentNamespaces[p])
  {
  }

  /** Attributes that are not `xmlns:` declarations never bind a prefix. */
  lemma OtherAttributesBindNothing(attributes: seq<(string, string)>)
    requires forall i :: 0 <= i < |attributes| ==> !StartsWith(attributes[i].0, XmlnsPrefix)
    ensures GetNamespaces(attributes) == map[]
  {
  }

  function UnboundPrefixError(prefix: string, realName: string): string
  {
    "Namespace prefix " + prefix + " not found, can't create a node by the name " + realName
  }

  /** createNewNode: a childless node in the scope of this one, refused when its prefix is unbound. */
  function CreateNewNode(node: XmlNode, realName: string, attributes: seq<(string, string)>): (r: Outcome<XmlNode>)
    ensures r.Thrown? <==> !IsBlank(NamespacePrefix(realName)) && NamespacePrefix(realName) !in node.namespaces
    ensures r.Thrown? ==> r.error == ContractException(UnboundPrefixError(NamespacePrefix(realName), realName))
    ensures r.Ok? ==> r.value == NewXmlNode(realName, attributes, [], node.namespaces)
    ensures r.Ok? ==> r.value.childNodes == [] && node.namespaces.Keys <= r.value.namespaces.Keys
  {
    var prefix := NamespacePrefix(realName);
    if !IsBlank(prefix) && prefix !in node.namespaces then Thrown(ContractException(UnboundPrefixError(prefix, realName)))
    else Ok(NewXmlNode(realName, attributes, [], node.namespaces))
  }

  function UnresolvedPrefixError(prefix: string): string
  {
    "Namespace prefix " + prefix + " cannot be resolved"
  }

  /** qname: `{uri}name` for a prefixed node, `{xmlns}name` for a node with a default namespace, else the name. */
  function QName(node: XmlNode): (r: Outcome<string>)
    ensures !IsBlank(node.namespacePrefix) && node.namespacePrefix in node.namespaces ==>
      r == Ok("{" + node.namespaces[node.namespacePrefix] + "}" + node.name)
    ensures !IsBlank(node.namespacePrefix) && node.namespacePrefix !in node.namespaces ==>
      r == Thrown(ContractException(UnresolvedPrefixError(node.namespacePrefix)))
    ensures IsBlank(node.namespacePrefix) && Lookup(node.attributes, "xmlns").Some? ==>
      r == Ok("{" + Lookup(node.attributes, "xmlns").value + "}" + node.name)
    ensures IsBlank(node.namespacePrefix) && Lookup(node.attributes, "xmlns").None? ==> r == Ok(node.name)
  {
    if !IsBlank(node.namespacePrefix) then
      if node.namespacePrefix in node.namespaces then Ok("{" + node.namespaces[node.namespacePrefix] + "}" + node.name)
      else Thrown(ContractException(UnresolvedPrefixError(node.namespacePrefix)))
    else
      match Lookup(node.attributes, "xmlns")
      case Some(uri) => Ok("{" + uri + "}" + node.name)
      case None => Ok(node.name)
  }

  /** A node created in scope has a qualified name, whatever its attributes. */
  lemma CreatedNodeResolves(node: XmlNode, realName: string, attributes: seq<(string, string)>)
    requires CreateNewNode(node, realName, attributes).Ok?
    ensures QName(CreateNewNode(node, realName, attributes).value).Ok?
  {
  }

  /** A node declaring the prefix of its own name resolves to the declared URI. */
  lemma SelfDeclaredPrefixResolves(prefix: string, local: string, uri: string, parentNamespaces: map<string, string>)
    requires ':' !in prefix && !IsBlank(prefix)
    ensures var node := NewXmlNode(prefix + ":" + local, [(XmlnsPrefix + prefix, uri)], [], parentNamespaces);
      QName(node) == Ok("{" + uri + "}" + local)
  {
    QualifiedNameRoundTrip(prefix, local);
    var attributes := [(XmlnsPrefix + prefix, uri)];
    assert Lookup(attributes, XmlnsPrefix + prefix) == Some(uri);
  }

  function NamespaceNotFoundError(prefix: string, node: XmlNode): string
  {
    "Namespace " + prefix + " not found in node " + ToStringValue(node)
  }

  /** resolveNamespace: "" for an unprefixed name, the bound URI for a bound prefix, an error otherwise. */
  function ResolveNamespace(node: XmlNode, name: string): (r: Outcome<string>)
    ensures IsBlank(NamespacePrefix(name)) ==> r == Ok("")
    ensures !IsBlank(NamespacePrefix(name)) && NamespacePrefix(name) in node.namespaces ==>
      r == Ok(node.namespaces[NamespacePrefix(name)])
    ensures !IsBlank(NamespacePrefix(name)) && NamespacePrefix(name) !in node.namespaces ==>
      r.Thrown? && r.error.ContractException? && StartsWith(r.error.message, "Namespace " + NamespacePrefix(name) + " not found in node ")
  {
    var prefix := NamespacePrefix(name);
    if IsBlank(prefix) then Ok("")
    else if prefix in node.namespaces then Ok(node.namespaces[prefix])
    else
      var message := NamespaceNotFoundError(prefix, node);
      assert message == ("Namespace " + prefix + " not found in node ") + ToStringValue(node);
      Thrown(ContractException(message))
  }

  /** Resolving a node's own name agrees with its qname when the prefix is bound. */
  lemma ResolveNamespaceAgreesWithQName(node: XmlNode)
    requires node.namespacePrefix == NamespacePrefix(node.realName)
    requires !IsBlank(node.namespacePrefix) && node.namespacePrefix in node.namespaces
    ensures QName(node) == Ok("{" + ResolveNamespace(node, node.realName).value + "}" + node.name)
  {
  }

  // ---------------------------------------------------------------------
  // Rendering

  function Quoted(value: string): string
  {
    "\"" + value + "\""
  }

  function AttributeString(attribute: (string, string)): string
  {
    attribute.0 + "=" + Quoted(attribute.1)
  }

  /** The attributes as ` k1="v1" k2="v2"`, or "" when there are none. */
  function AttributesString(attributes: seq<(string, string)>): (s: string)
    ensures attributes == [] <==> s == ""
  {
    if attributes == [] then ""
    else " " + Join(seq(|attributes|, i requires 0 <= i < |attributes| => AttributeString(attributes[i])), " ")
  }

  /** Kotlin's `lineSequence`: lines split at "\r\n", "\n" or "\r". */
  function Lines(s: string): (lines: seq<string>)
    ensures |lines| >= 1
    decreases |s|
  {
    var k := IndexWhere(s, IsLineBreak);
    if k == |s| then [s]
    else if s[k] == '\r' && k + 1 < |s| && s[k + 1] == '\n' then [s[..k]] + Lines(s[k + 2..])
    else [s[..k]] + Lines(s[k + 1..])
  }

  predicate IsLineBreak(c: char)
  {
    c == '\n' || c == '\r'
  }

  function IndentLine(line: string, indent: string): string
  {
    if IsBlank(line) then (if |line| < |indent| then indent else line) else indent + line
  }

  /** Kotlin's `prependIndent`: every line indented, blank lines padded to the indent, lines joined with "\n". */
  function PrependIndent(s: string, indent: string): string
  {
    var lines := Lines(s);
    Join(seq(|lines|, i requires 0 <= i < |lines| => IndentLine(lines[i], indent)), "\n")
  }

  /** Without carriage returns, the lines are the parts between the "\n"s. */
  lemma {:induction false} LinesWithoutReturns(s: string)
    requires '\r' !in s
    ensures Lines(s) == SplitOn(s, '\n')
    decreases |s|
  {
    var k := IndexWhere(s, IsLineBreak);
    assert forall j :: 0 <= j < k ==> s[j] != '\n';
    if k < |s| {
      assert s == s[..k] + ['\n'] + s[k + 1..];
      assert '\n' !in s[..k];
      SplitOnStep(s[..k], '\n', s[k + 1..]);
      LinesWithoutReturns(s[k + 1..]);
    } else {
      assert '\n' !in s;
    }
  }

  /** An empty indent changes nothing in text without carriage returns. */
  lemma PrependEmptyIndent(s: string)
    requires '\r' !in s
    ensures PrependIndent(s, "") == s
  {
    var lines := Lines(s);
    LinesWithoutReturns(s);
    assert forall i :: 0 <= i < |lines| ==> IndentLine(lines[i], "") == lines[i] by {
      forall i | 0 <= i < |lines| ensures IndentLine(lines[i], "") == lines[i] {
        assert "" + lines[i] == lines[i];
      }
    }
    assert seq(|lines|, i requires 0 <= i < |lines| => IndentLine(lines[i], "")) == lines;
  }

  /** nodeToString: a node and its children as text, with the given indent and line separator. */
  function NodeToString(node: XmlNode, indent: string, lineSeparator: string): string
    decreases node, 1
  {
    var attributes := AttributesString(node.attributes);
    if node.childNodes == [] then "<" + node.realName + attributes + "/>"
    else
      var firstLine := "<" + node.realName + attributes + ">";
      var lastLine := "</" + node.realName + ">";
      var linesBetween := ChildStrings(node, indent, lineSeparator);
      if node.childNodes[0].TextValue? then firstLine + linesBetween[0] + lastLine
      else firstLine + lineSeparator + PrependIndent(Join(linesBetween, lineSeparator), indent) + lineSeparator + lastLine
  }

  function ChildStrings(node: XmlNode, indent: string, lineSeparator: string): (lines: seq<string>)
    ensures |lines| == |node.childNodes|
    decreases node, 0
  {
    seq(|node.childNodes|, i requires 0 <= i < |node.childNodes| => ValueToString(node.childNodes[i], indent, lineSeparator))
  }

  function ValueToString(value: XmlValue, indent: string, lineSeparator: string): string
    decreases value
  {
    match value
    case TextValue(text) => text
    case NodeValue(child) => NodeToString(child, indent, lineSeparator)
  }

  /** toStringValue: the compact rendering, without indent or line breaks. */
  function ToStringValue(node: XmlNode): string
  {
    NodeToString(node, "", "")
  }

  /** toPrettyStringValue: two-space indent, one line per nested child. */
  function ToPrettyStringValue(node: XmlNode): string
  {
    NodeToString(node, "  ", Results.LineSeparator)
  }

  /** Indentation only shows when the first child is a node: other nodes print the same either way. */
  lemma PrettyOfFlatNode(node: XmlNode)
    requires node.childNodes == [] || node.childNodes[0].TextValue?
    ensures ToPrettyStringValue(node) == ToStringValue(node)
  {
    if node.childNodes != [] {
      assert ChildStrings(node, "", "")[0] == ValueToString(node.childNodes[0], "", "");
      assert ChildStrings(node, "  ", Results.LineSeparator)[0] == ValueToString(node.childNodes[0], "  ", Results.LineSeparator);
    }
  }

  /** A node whose first child is a node prints its children on their own lines when pretty. */
  lemma PrettyOfNestedNode(node: XmlNode)
    requires |node.childNodes| > 0 && node.childNodes[0].NodeValue?
    ensures var open := "<" + node.realName + AttributesString(node.attributes) + ">";
      var close := "</" + node.realName + ">";
      && StartsWith(ToPrettyStringValue(node), open + "\n")
      && EndsWith(ToPrettyStringValue(node), "\n" + close)
  {
    var open := "<" + node.realName + AttributesString(node.attributes) + ">";
    var close := "</" + node.realName + ">";
    var middle := PrependIndent(Join(ChildStrings(node, "  ", "\n"), "\n"), "  ");
    var s := ToPrettyStringValue(node);
    assert s == (open + "\n") + middle + ("\n" + close);
    assert s[..|open + "\n"|] == open + "\n";
    assert s[|s| - |"\n" + close|..] == "\n" + close;
  }

  /** A node without children renders as a self-closing tag. */
  lemma ChildlessRendering(node: XmlNode)
    requires node.childNodes == []
    ensures ToStringValue(node) == "<" + node.realName + AttributesString(node.attributes) + "/>"
  {
  }

  /** A node whose first child is text renders as that text between the tags; later children are dropped. */
  lemma TextFirstRendering(node: XmlNode)
    requires |node.childNodes| > 0 && node.childNodes[0].TextValue?
    ensures ToStringValue(node) ==
      "<" + node.realName + AttributesString(node.attributes) + ">" + node.childNodes[0].text + "</" + node.realName + ">"
  {
    assert ChildStrings(node, "", "")[0] == ValueToString(node.childNodes[0], "", "");
  }

  /** A node whose first child is a node renders as its children one after the other between the tags. */
  lemma NestedRendering(node: XmlNode)
    requires |node.childNodes| > 0 && node.childNodes[0].NodeValue?
    requires '\r' !in Join(ChildStrings(node, "", ""), "")
    ensures ToStringValue(node) ==
      "<" + node.realName + AttributesString(node.attributes) + ">" + Join(ChildStrings(node, "", ""), "") + "</" + node.realName + ">"
  {
    var between := Join(ChildStrings(node, "", ""), "");
    PrependEmptyIndent(between);
    var firstLine := "<" + node.realName + AttributesString(node.attributes) + ">";
    var lastLine := "</" + node.realName + ">";
    assert ToStringValue(node) == firstLine + "" + PrependIndent(between, "") + "" + lastLine;
  }

  /** Every attribute appears in the rendering as key="value". */
  lemma AttributeRendered(node: XmlNode, i: nat)
    requires i < |node.attributes|
    ensures IsSubstring(AttributeString(node.attributes[i]), ToStringValue(node))
  {
    var attributes := node.attributes;
    var parts := seq(|attributes|, j requires 0 <= j < |attributes| => AttributeString(attributes[j]));
    JoinContainsPart(parts, " ", i);
    var attributesString := AttributesString(attributes);
    SubstringOfConcat(parts[i], " ", Join(parts, " "), "");
    assert " " + Join(parts, " ") + "" == attributesString;
    var s := ToStringValue(node);
    var head := "<" + node.realName;
    if node.childNodes == [] {
      assert s == head + attributesString + "/>";
      SubstringOfConcat(parts[i], head, attributesString, "/>");
    } else {
      var rest := s[|head| + |attributesString|..];
      assert s == head + attributesString + rest;
      SubstringOfConcat(parts[i], head, attributesString, rest);
    }
  }

  // ---------------------------------------------------------------------
  // Children

  /** The children that are nodes, in order: `filterIsInstance<XMLNode>()`. */
  function ElementChildren(values: seq<XmlValue>): (nodes: seq<XmlNode>)
    ensures |nodes| <= |values|
    ensures forall i :: 0 <= i < |nodes| ==> NodeValue(nodes[i]) in values
    ensures forall i :: 0 <= i < |values| && values[i].NodeValue? ==> values[i].node in nodes
  {
    if values == [] then []
    else
      var rest := ElementChildren(values[1..]);
      assert forall i :: 1 <= i < |values| ==> values[i] == values[1..][i - 1];
      if values[0].NodeValue? then [values[0].node] + rest else rest
  }

  /** Element children distribute over concatenation, so they keep the children's order. */
  lemma {:induction false} ElementChildrenConcat(a: seq<XmlValue>, b: seq<XmlValue>)
    ensures ElementChildren(a + b) == ElementChildren(a) + ElementChildren(b)
  {
    if a == [] {
      assert a + b == b;
    } else {
      assert (a + b)[0] == a[0];
      assert (a + b)[1..] == a[1..] + b;
      ElementChildrenConcat(a[1..], b);
    }
  }

  /** A single child contributes itself when it is an element, and nothing when it is text. */
  lemma ElementChildrenOfOne(v: XmlValue)
    ensures ElementChildren([v]) == if v.NodeValue? then [v.node] else []
  {
  }

  /** The child at i is an element satisfying p, and no element child before it does. */
  predicate FirstElementMatchAt(values: seq<XmlValue>, i: int, p: XmlNode -> bool)
  {
    0 <= i < |values| && values[i].NodeValue? && p(values[i].node) &&
    forall j :: 0 <= j < i && values[j].NodeValue? ==> !p(values[j].node)
  }

  /** `filterIsInstance<XMLNode>().find { p }` finds the first element child satisfying p, or none when no element child does. */
  lemma {:induction false} FindElementChild(values: seq<XmlValue>, p: XmlNode -> bool)
    ensures Find(ElementChildren(values), p).None? <==>
      forall i :: 0 <= i < |values| && values[i].NodeValue? ==> !p(values[i].node)
    ensures Find(ElementChildren(values), p).Some? ==>
      exists i :: FirstElementMatchAt(values, i, p) && values[i].node == Find(ElementChildren(values), p).value
  {
    if values != [] {
      FindElementChild(values[1..], p);
      var rest := ElementChildren(values[1..]);
      assert forall i :: 1 <= i < |values| ==> values[i] == values[1..][i - 1];
      if values[0].NodeValue? {
        assert ElementChildren(values) == [values[0].node] + rest;
        if p(values[0].node) {
          assert FirstElementMatchAt(values, 0, p);
        } else {
          FindSkip([values[0].node] + rest, p);
          assert ([values[0].node] + rest)[1..] == rest;
          ShiftFirstElementMatch(values, p);
        }
      } else {
        ShiftFirstElementMatch(values, p);
      }
    }
  }

  lemma ShiftFirstElementMatch(values: seq<XmlValue>, p: XmlNode -> bool)
    requires values != [] && (values[0].NodeValue? ==> !p(values[0].node))
    ensures forall i :: FirstElementMatchAt(values[1..], i, p) ==> FirstElementMatchAt(values, i + 1, p)
  {
    assert forall i :: 1 <= i < |values| ==> values[i] == values[1..][i - 1];
  }

  predicate HasName(name: string, node: XmlNode)
  {
    node.name == name
  }

  /** findFirstChildByName: the first element child with the given local name. */
  function FindFirstChildByName(node: XmlNode, name: string): (r: Option<XmlNode>)
    ensures r.Some? ==> r.value.name == name && NodeValue(r.value) in node.childNodes
    ensures r.Some? ==> exists i :: FirstElementMatchAt(node.childNodes, i, n => HasName(name, n)) && node.childNodes[i].node == r.value
    ensures r.None? <==> forall i :: 0 <= i < |node.childNodes| && node.childNodes[i].NodeValue? ==> node.childNodes[i].node.name != name
  {
    FindElementChild(node.childNodes, n => HasName(name, n));
    Find(ElementChildren(node.childNodes), n => HasName(name, n))
  }

  /** findFirstChildByName with an error message: the child, or the error. */
  function FindFirstChildByNameOrError(node: XmlNode, name: string, errorMessage: string): (r: Outcome<XmlNode>)
    ensures r.Ok? <==> FindFirstChildByName(node, name).Some?
    ensures r.Ok? ==> r.value == FindFirstChildByName(node, name).value
    ensures r.Thrown? ==> r.error == ContractException(errorMessage)
  {
    match FindFirstChildByName(node, name)
    case Some(child) => Ok(child)
    case None => Thrown(ContractException(errorMessage))
  }

  /** findChildrenByName: every element child with the given local name, in order. */
  function FindChildrenByName(node: XmlNode, name: string): (r: seq<XmlNode>)
    ensures forall i :: 0 <= i < |r| ==> r[i].name == name && NodeValue(r[i]) in node.childNodes
    ensures forall i :: 0 <= i < |node.childNodes| && node.childNodes[i].NodeValue? && node.childNodes[i].node.name == name ==>
      node.childNodes[i].node in r
  {
    Filter(ElementChildren(node.childNodes), n => HasName(name, n))
  }

  /**
   * findChildrenByName works child by child: the matches among a concatenation
   * of children are those of each part, in order.
   */
  lemma FindChildrenByNameConcat(node: XmlNode, name: string, a: seq<XmlValue>, b: seq<XmlValue>)
    requires node.childNodes == a + b
    ensures FindChildrenByName(node, name) ==
      FindChildrenByName(node.(childNodes := a), name) + FindChildrenByName(node.(childNodes := b), name)
  {
    ElementChildrenConcat(a, b);
    FilterConcat(ElementChildren(a), ElementChildren(b), n => HasName(name, n));
  }

  /** A single child is found exactly when it is an element with the name. */
  lemma FindChildrenByNameOfOne(node: XmlNode, name: string, v: XmlValue)
    requires node.childNodes == [v]
    ensures FindChildrenByName(node, name) == if v.NodeValue? && v.node.name == name then [v.node] else []
  {
  }

  /** The first child found by name is the first of the children with that name. */
  lemma FirstChildIsFirstOfChildren(node: XmlNode, name: string)
    ensures FindFirstChildByName(node, name).None? <==> FindChildrenByName(node, name) == []
    ensures FindFirstChildByName(node, name).Some? ==> FindFirstChildByName(node, name).value == FindChildrenByName(node, name)[0]
  {
    FindIsFirstOfFilter(ElementChildren(node.childNodes), n => HasName(name, n));
  }

  lemma {:induction false} FindIsFirstOfFilter<T>(s: seq<T>, p: T -> bool)
    ensures Find(s, p).None? <==> Filter(s, p) == []
    ensures Find(s, p).Some? ==> Find(s, p).value == Filter(s, p)[0]
  {
    if s != [] && !p(s[0]) {
      FindIsFirstOfFilter(s[1..], p);
      FindSkip(s, p);
      assert Filter(s, p) == Filter(s[1..], p);
    }
  }

  lemma FindSkip<T>(s: seq<T>, p: T -> bool)
    requires s != [] && !p(s[0])
    ensures Find(s, p) == Find(s[1..], p)
  {
    assert forall i :: 1 <= i < |s| ==> s[i] == s[1..][i - 1];
  }

  /** findFirstChildByPath over segments: no segment is the node itself; each segment descends by name. */
  function FindByPath(node: XmlNode, path: seq<string>): (r: Option<XmlNode>)
    decreases |path|
  {
    if path == [] then Some(node)
    else
      match FindFirstChildByName(node, path[0])
      case None => None
      case Some(child) => FindByPath(child, path[1..])
  }

  /** Following a path in two legs is following it at once. */
  lemma {:induction false} FindByPathConcat(node: XmlNode, a: seq<string>, b: seq<string>)
    ensures FindByPath(node, a + b) ==
      (match FindByPath(node, a) case None => None case Some(mid) => FindByPath(mid, b))
    decreases |a|
  {
    if a != [] {
      assert (a + b)[0] == a[0] && (a + b)[1..] == a[1..] + b;
      match FindFirstChildByName(node, a[0])
      case None =>
      case Some(child) => FindByPathConcat(child, a[1..], b);
    } else {
      assert a + b == b;
    }
  }

  /** findFirstChildByPath: the path is split on '.'. */
  function FindFirstChildByPath(node: XmlNode, path: string): Option<XmlNode>
  {
    FindByPath(node, SplitOn(path, '.'))
  }

  /** A path without dots is a single child lookup. */
  lemma SingleSegmentPath(node: XmlNode, name: string)
    requires '.' !in name
    ensures FindFirstChildByPath(node, name) == FindFirstChildByName(node, name)
  {
    assert SplitOn(name, '.') == [name];
    assert [name][1..] == [];
    match FindFirstChildByName(node, name)
    case None =>
    case Some(child) => assert FindByPath(child, []) == Some(child);
  }

  /** A dotted path descends one level per segment. */
  lemma DottedPath(node: XmlNode, first: string, rest: string)
    requires '.' !in first
    ensures FindFirstChildByPath(node, first + "." + rest) ==
      (match FindFirstChildByName(node, first) case None => None case Some(child) => FindFirstChildByPath(child, rest))
  {
    assert first + "." + rest == first + ['.'] + rest;
    SplitOnStep(first, '.', rest);
    FindByPathConcat(node, [first], SplitOn(rest, '.'));
    assert [first] + SplitOn(rest, '.') == SplitOn(first + "." + rest, '.');
    match FindFirstChildByName(node, first)
    case None =>
    case Some(child) =>
      assert FindByPath(node, [first]) == FindByPath(child, []);
  }

  /** getXMLNodeByPath: the node at the path, or an error naming the path. */
  function GetXmlNodeByPath(node: XmlNode, path: string): (r: Outcome<XmlNode>)
    ensures r.Ok? <==> FindFirstChildByPath(node, path).Some?
    ensures r.Ok? ==> r.value == FindFirstChildByPath(node, path).value
    ensures r.Thrown? ==> r.error == ContractException("Couldn't find node at path " + path)
  {
    match FindFirstChildByPath(node, path)
    case Some(child) => Ok(child)
    case None => Thrown(ContractException("Couldn't find node at path " + path))
  }

  /** getXMLNodeOrNull: the node at the path, if any. */
  function GetXmlNodeOrNull(node: XmlNode, path: string): (r: Option<XmlNode>)
    ensures r.Some? <==> GetXmlNodeByPath(node, path).Ok?
    ensures r.Some? ==> r.value == GetXmlNodeByPath(node, path).value
  {
    FindFirstChildByPath(node, path)
  }

  /** getXMLNodeByName: the first child with the name, or an error naming it. */
  function GetXmlNodeByName(node: XmlNode, name: string): (r: Outcome<XmlNode>)
    ensures r == FindFirstChildByNameOrError(node, name, "Couldn't find node named " + name)
  {
    match FindFirstChildByName(node, name)
    case Some(child) => Ok(child)
    case None => Thrown(ContractException("Couldn't find node named " + name))
  }

  /** getAttributeValue: the attribute's value, or the given error. */
  function GetAttributeValue(node: XmlNode, attributeName: string, errorMessage: string): (r: Outcome<string>)
    ensures r.Ok? <==> exists i :: 0 <= i < |node.attributes| && node.attributes[i].0 == attributeName
    ensures r.Ok? ==> (attributeName, r.value) in node.attributes
    ensures r.Thrown? ==> r.error == ContractException(errorMessage)
  {
    match Lookup(node.attributes, attributeName)
    case Some(value) => Ok(value)
    case None => Thrown(ContractException(errorMessage))
  }

  /** The default error of getAttributeValue names the attribute and the node. */
  function MissingAttributeError(node: XmlNode, attributeName: string): string
  {
    "Couldn't find attribute " + attributeName + " in node " + node.realName
  }

  /** getAttributeValue with its default message: a missing attribute is reported by its name and the node's real name. */
  lemma GetAttributeValueDefault(node: XmlNode, attributeName: string)
    ensures var r := GetAttributeValue(node, attributeName, MissingAttributeError(node, attributeName));
      r.Thrown? <==> forall i :: 0 <= i < |node.attributes| ==> node.attributes[i].0 != attributeName
    ensures var r := GetAttributeValue(node, attributeName, MissingAttributeError(node, attributeName));
      r.Thrown? ==> r.error.ContractException? && IsSubstring(attributeName, r.error.message) && IsSubstring(node.realName, r.error.message)
  {
    var m := MissingAttributeError(node, attributeName);
    Results.OccursInMiddle("Couldn't find attribute ", attributeName, " in node " + node.realName);
    assert m == "Couldn't find attribute " + attributeName + (" in node " + node.realName);
    Results.OccursInMiddle("Couldn't find attribute " + attributeName + " in node ", node.realName, "");
    assert m == ("Couldn't find attribute " + attributeName + " in node ") + node.realName + "";
  }

  /** getAttributeValueAtPath: the attribute of the node at the path; either lookup may fail. */
  function GetAttributeValueAtPath(node: XmlNode, path: string, attributeName: string): (r: Outcome<string>)
    ensures FindFirstChildByPath(node, path).None? ==> r == Thrown(ContractException("Couldn't find node at path " + path))
    ensures FindFirstChildByPath(node, path).Some? ==>
      r == GetAttributeValue(FindFirstChildByPath(node, path).value, attributeName,
                             "Couldn't find attribute " + attributeName + " at path " + path)
  {
    match GetXmlNodeByPath(node, path)
    case Thrown(e) => Thrown(e)
    case Ok(child) =>
      match Lookup(child.attributes, attributeName)
      case Some(value) => Ok(value)
      case None => Thrown(ContractException("Couldn't find attribute " + attributeName + " at path " + path))
  }

  predicate HasAttributeValue(attributeName: string, value: string, node: XmlNode)
  {
    Lookup(node.attributes, attributeName) == Some(value)
  }

  predicate HasNameAndAttributeValue(nodeName: string, attributeName: string, value: string, node: XmlNode)
  {
    node.name == nodeName && HasAttributeValue(attributeName, value, node)
  }

  function AttributeNotFoundError(attributeName: string, value: string): string
  {
    "Couldn't find a node with attribute " + attributeName + "=" + value
  }

  /** getXMLNodeByAttributeValue: the first element child whose attribute has the value. */
  function GetXmlNodeByAttributeValue(node: XmlNode, attributeName: string, value: string): (r: Outcome<XmlNode>)
    ensures r.Ok? ==> HasAttributeValue(attributeName, value, r.value) && NodeValue(r.value) in node.childNodes
    ensures r.Ok? ==> exists i ::
      FirstElementMatchAt(node.childNodes, i, n => HasAttributeValue(attributeName, value, n)) && node.childNodes[i].node == r.value
    ensures r.Thrown? <==> forall i :: 0 <= i < |node.childNodes| && node.childNodes[i].NodeValue? ==>
      !HasAttributeValue(attributeName, value, node.childNodes[i].node)
    ensures r.Thrown? ==> r.error == ContractException(AttributeNotFoundError(attributeName, value))
  {
    FindElementChild(node.childNodes, n => HasAttributeValue(attributeName, value, n));
    match Find(ElementChildren(node.childNodes), n => HasAttributeValue(attributeName, value, n))
    case Some(child) => Ok(child)
    case None => Thrown(ContractException(AttributeNotFoundError(attributeName, value)))
  }

  /** findByNodeNameAndAttribute: the first element child with the name and the attribute value. */
  function FindByNodeNameAndAttribute(node: XmlNode, nodeName: string, attributeName: string, value: string): (r: Outcome<XmlNode>)
    ensures r.Ok? ==> r.value.name == nodeName && HasAttributeValue(attributeName, value, r.value) && NodeValue(r.value) in node.childNodes
    ensures r.Ok? ==> exists i ::
      FirstElementMatchAt(node.childNodes, i, n => HasNameAndAttributeValue(nodeName, attributeName, value, n)) && node.childNodes[i].node == r.value
    ensures r.Thrown? <==> forall i :: 0 <= i < |node.childNodes| && node.childNodes[i].NodeValue? ==>
      !HasNameAndAttributeValue(nodeName, attributeName, value, node.childNodes[i].node)
    ensures r.Thrown? ==> r.error == ContractException(AttributeNotFoundError(attributeName, value))
  {
    FindElementChild(node.childNodes, n => HasNameAndAttributeValue(nodeName, attributeName, value, n));
    match Find(ElementChildren(node.childNodes), n => HasNameAndAttributeValue(nodeName, attributeName, value, n))
    case Some(child) => Ok(child)
    case None => Thrown(ContractException(AttributeNotFoundError(attributeName, value)))
  }

  /** firstNode: the first element child, skipping text. */
  function FirstNode(node: XmlNode): (r: Option<XmlNode>)
    ensures r.None? <==> forall i :: 0 <= i < |node.childNodes| ==> node.childNodes[i].TextValue?
    ensures r.Some? ==> exists i :: 0 <= i < |node.childNodes| && node.childNodes[i] == NodeValue(r.value) && OnlyTextBefore(node.childNodes, i)
  {
    FirstElement(node.childNodes)
  }

  predicate OnlyTextBefore(values: seq<XmlValue>, i: nat)
    requires i <= |values|
  {
    forall j :: 0 <= j < i ==> values[j].TextValue?
  }

  function FirstElement(values: seq<XmlValue>): (r: Option<XmlNode>)
    ensures r.None? <==> forall i :: 0 <= i < |values| ==> values[i].TextValue?
    ensures r.Some? ==> exists i :: 0 <= i < |values| && values[i] == NodeValue(r.value) && OnlyTextBefore(values, i)
  {
    if values == [] then None
    else if values[0].NodeValue? then Some(values[0].node)
    else
      var r := FirstElement(values[1..]);
      assert forall i :: 1 <= i < |values| ==> values[i] == values[1..][i - 1];
      assert forall i :: 0 <= i < |values[1..]| && OnlyTextBefore(values[1..], i) ==> OnlyTextBefore(values, i + 1);
      r
  }

  /** findNodeByNameAttribute: the first element child whose `name` attribute has the value. */
  function FindNodeByNameAttribute(node: XmlNode, value: string): (r: Outcome<XmlNode>)
    ensures r.Ok? ==> exists i ::
      FirstElementMatchAt(node.childNodes, i, n => HasAttributeValue("name", value, n)) && node.childNodes[i].node == r.value
    ensures r.Thrown? <==> forall i :: 0 <= i < |node.childNodes| && node.childNodes[i].NodeValue? ==>
      !HasAttributeValue("name", value, node.childNodes[i].node)
    ensures r.Thrown? ==> r.error == ContractException("Couldn't find name attribute")
  {
    FindElementChild(node.childNodes, n => HasAttributeValue("name", value, n));
    match Find(ElementChildren(node.childNodes), n => HasAttributeValue("name", value, n))
    case Some(child) => Ok(child)
    case None => Thrown(ContractException("Couldn't find name attribute"))
  }

  /** Looking up by the `name` attribute is looking up by attribute value, with its own message. */
  lemma NameAttributeIsAttributeValue(node: XmlNode, value: string)
    ensures FindNodeByNameAttribute(node, value).Ok? <==> GetXmlNodeByAttributeValue(node, "name", value).Ok?
    ensures FindNodeByNameAttribute(node, value).Ok? ==>
      FindNodeByNameAttribute(node, value).value == GetXmlNodeByAttributeValue(node, "name", value).value
  {
  }
}
