/**
 An already-parsed markup tree, as the parser hands it to the extractors.
 A node has a kind, its data (the tag name of an element, the characters of a
 text node), its attributes in document order and its children in document
 order. The tree is an immutable value: the extractors only read it.
 */
module Html {

  /** The node kinds of the parser. */
  datatype NodeKind = ErrorNode | TextNode | DocumentNode | ElementNode | CommentNode | DoctypeNode | RawNode

  /** One `key="val"` attribute. Keys need not be unique. */
  datatype Attribute = Attribute(key: string, val: string)

  datatype Node = Node(kind: NodeKind, data: string, attrs: seq<Attribute>, children: seq<Node>)

  /** A text node with the given characters. */
  function Text(data: string): Node {
    Node(TextNode, data, [], [])
  }

  /** An element with the given tag, attributes and children. */
  function Element(tag: string, attrs: seq<Attribute>, children: seq<Node>): Node {
    Node(ElementNode, tag, attrs, children)
  }

  /** Every node of the tree rooted at `n`, in depth-first pre-order: the node
      itself, then the nodes of each child's subtree, children left to right. */
  function PreOrder(n: Node): (r: seq<Node>)
    ensures |r| >= 1 && r[0] == n
    decreases n
  {
    [n] + PreOrderAll(n.children)
  }

  /** The pre-order listings of a sequence of siblings, one after the other. */
  function PreOrderAll(cs: seq<Node>): seq<Node>
    decreases cs
  {
    if |cs| == 0 then [] else PreOrder(cs[0]) + PreOrderAll(cs[1..])
  }

  /** The shape the parser always produces: text nodes have no children. */
  predicate WellFormed(n: Node)
    decreases n
  {
    && (n.kind == TextNode ==> |n.children| == 0)
    && forall i | 0 <= i < |n.children| :: WellFormed(n.children[i])
  }
}
