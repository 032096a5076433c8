/**
 The tree query primitives every extractor is built from: first-match and
 all-matches depth-first traversals keyed on a tag name, an exact class string
 or an exact id, the text normaliser and the first-wins attribute lookup.
 */
module Selector {
  import opened Wrappers
  import opened Strings
  import opened Html

  /** What a traversal looks for. The selector file builds one closure per kind;
      here the three kinds are a closed datatype. */
  datatype Query = ByTag(tag: string) | ByClass(className: string) | ById(id: string)

  // ---------------------------------------------------------------------------
  // Attributes and matchers
  // ---------------------------------------------------------------------------

  /** The value of the first attribute named `key`, with a found flag;
      `("", false)` when no attribute has that name. */
  function FindAttr(attrs: seq<Attribute>, key: string): (r: (string, bool))
    ensures r.1 <==> exists i | 0 <= i < |attrs| :: attrs[i].key == key
    ensures r.1 ==> exists i | 0 <= i < |attrs| ::
                      attrs[i] == Attribute(key, r.0) && forall j | 0 <= j < i :: attrs[j].key != key
    ensures !r.1 ==> r.0 == ""
  {
    if |attrs| == 0 then ("", false)
    else if attrs[0].key == key then (attrs[0].val, true)
    else
      var r := FindAttr(attrs[1..], key);
      assert r.1 ==> exists i | 0 <= i < |attrs[1..]| ::
                       attrs[1..][i] == Attribute(key, r.0) && forall j | 0 <= j < i :: attrs[1..][j].key != key;
      assert forall i | 0 <= i < |attrs[1..]| :: attrs[1..][i] == attrs[i + 1];
      r
  }

  predicate HasTagName(n: Node, tag: string) {
    n.kind == ElementNode && n.data == tag
  }

  /** The whole class attribute must equal `className`: no token splitting. */
  predicate HasClass(n: Node, className: string) {
    n.kind == ElementNode && FindAttr(n.attrs, "class") == (className, true)
  }

  predicate HasId(n: Node, id: string) {
    n.kind == ElementNode && FindAttr(n.attrs, "id") == (id, true)
  }

  predicate Matches(n: Node, q: Query) {
    match q
    case ByTag(tag) => HasTagName(n, tag)
    case ByClass(className) => HasClass(n, className)
    case ById(id) => HasId(n, id)
  }

  /** `attrs[i]` is the first attribute named `key`. */
  predicate FirstWithKey(attrs: seq<Attribute>, i: int, key: string) {
    0 <= i < |attrs| && attrs[i].key == key && forall j | 0 <= j < i :: attrs[j].key != key
  }

  /** The lookup's value is the value of the first attribute with the key. */
  lemma FindAttrFirst(attrs: seq<Attribute>, key: string, val: string)
    ensures FindAttr(attrs, key) == (val, true) <==>
              exists i | 0 <= i < |attrs| :: FirstWithKey(attrs, i, key) && attrs[i].val == val
  {
    if exists i | 0 <= i < |attrs| :: FirstWithKey(attrs, i, key) && attrs[i].val == val {
      var i :| 0 <= i < |attrs| && FirstWithKey(attrs, i, key) && attrs[i].val == val;
      var r := FindAttr(attrs, key);
      var k :| 0 <= k < |attrs| && attrs[k] == Attribute(key, r.0) && forall j | 0 <= j < k :: attrs[j].key != key;
      assert !(i < k) && !(k < i);
    }
    if FindAttr(attrs, key) == (val, true) {
      var k :| 0 <= k < |attrs| && attrs[k] == Attribute(key, val) && forall j | 0 <= j < k :: attrs[j].key != key;
      assert FirstWithKey(attrs, k, key) && attrs[k].val == val;
    }
  }

  /** Matching is exact. Only element nodes match anything. A node matches a
      class (an id) exactly when its first `class` (`id`) attribute holds that
      whole string, so an attribute holding two space-separated names matches
      neither name alone. */
  lemma MatchIsExact(n: Node, q: Query, c1: string, c2: string)
    ensures n.kind != ElementNode ==> !Matches(n, q)
    ensures Matches(n, ByClass(c1)) <==>
              n.kind == ElementNode && exists i | 0 <= i < |n.attrs| :: FirstWithKey(n.attrs, i, "class") && n.attrs[i].val == c1
    ensures Matches(n, ById(c1)) <==>
              n.kind == ElementNode && exists i | 0 <= i < |n.attrs| :: FirstWithKey(n.attrs, i, "id") && n.attrs[i].val == c1
    ensures FindAttr(n.attrs, "class").0 == c1 + " " + c2 ==> !Matches(n, ByClass(c1)) && !Matches(n, ByClass(c2))
    ensures FindAttr(n.attrs, "id").0 == c1 + " " + c2 ==> !Matches(n, ById(c1)) && !Matches(n, ById(c2))
  {
    FindAttrFirst(n.attrs, "class", c1);
    FindAttrFirst(n.attrs, "id", c1);
    assert |c1 + " " + c2| > |c1| && |c1 + " " + c2| > |c2|;
  }

  /** A class attribute holding two names does not match either name alone. */
  lemma ClassIsNotTokenised()
    ensures !Matches(Element("div", [Attribute("class", "foo bar")], []), ByClass("foo"))
  {
  }

  // ---------------------------------------------------------------------------
  // Reference definitions
  // ---------------------------------------------------------------------------

  /** The nodes of `ns` that satisfy `q`, in order. */
  function Matching(ns: seq<Node>, q: Query): (r: seq<Node>)
    ensures forall m | m in r :: Matches(m, q) && m in ns
    ensures forall m | m in ns && Matches(m, q) :: m in r
    ensures |r| <= |ns|
  {
    if |ns| == 0 then []
    else
      var rest := Matching(ns[1..], q);
      assert forall m | m in ns :: m == ns[0] || m in ns[1..];
      if Matches(ns[0], q) then [ns[0]] + rest else rest
  }

  lemma {:induction false} MatchingConcat(a: seq<Node>, b: seq<Node>, q: Query)
    ensures Matching(a + b, q) == Matching(a, q) + Matching(b, q)
  {
    if |a| > 0 {
      assert (a + b)[1..] == a[1..] + b;
      MatchingConcat(a[1..], b, q);
    } else {
      assert a + b == b;
    }
  }

  function Head(ns: seq<Node>): Option<Node> {
    if |ns| == 0 then None else Some(ns[0])
  }

  /** The first node, in pre-order, of the tree rooted at `n` that satisfies `q`. */
  function FirstIn(n: Node, q: Query): (r: Option<Node>)
    ensures r.Some? ==> Matches(r.value, q) && r.value in PreOrder(n)
  {
    var all := Matching(PreOrder(n), q);
    assert all != [] ==> all[0] in all;
    Head(all)
  }

  /** There is no first match exactly when no node of the tree matches. */
  lemma FirstInNone(n: Node, q: Query)
    ensures FirstIn(n, q).None? <==> forall m | m in PreOrder(n) :: !Matches(m, q)
  {
    var all := Matching(PreOrder(n), q);
    assert all != [] ==> all[0] in all;
  }

  /** Every node, in pre-order, of the tree rooted at `n` that satisfies `q`. */
  function AllIn(n: Node, q: Query): seq<Node> {
    Matching(PreOrder(n), q)
  }

  // ---------------------------------------------------------------------------
  // Traversals
  // ---------------------------------------------------------------------------

  /** The all-matches walk: the node itself when it matches, then the matches
      of each child's subtree in sibling order. */
  function Collect(n: Node, q: Query): (r: seq<Node>)
    ensures r == AllIn(n, q)
    decreases n
  {
    MatchingConcat([n], PreOrderAll(n.children), q);
    assert Matching([n], q) == Matching([], q) + (if Matches(n, q) then [n] else []) by {
      assert [n][1..] == [];
    }
    (if Matches(n, q) then [n] else []) + CollectAll(n.children, q)
  }

  function CollectAll(cs: seq<Node>, q: Query): (r: seq<Node>)
    ensures r == Matching(PreOrderAll(cs), q)
    decreases cs
  {
    if |cs| == 0 then []
    else
      MatchingConcat(PreOrder(cs[0]), PreOrderAll(cs[1..]), q);
      Collect(cs[0], q) + CollectAll(cs[1..], q)
  }

  /** The first-match walk: the node itself when it matches, otherwise the
      first match found in the children's subtrees, left to right. */
  function Traverse(n: Node, q: Query): (r: Option<Node>)
    ensures r == FirstIn(n, q)
    decreases n
  {
    MatchingConcat([n], PreOrderAll(n.children), q);
    assert Matching([n], q) == (if Matches(n, q) then [n] else []) by {
      assert [n][1..] == [];
    }
    if Matches(n, q) then Some(n) else TraverseAll(n.children, q)
  }

  function TraverseAll(cs: seq<Node>, q: Query): (r: Option<Node>)
    ensures r == Head(Matching(PreOrderAll(cs), q))
    decreases cs
  {
    if |cs| == 0 then None
    else
      MatchingConcat(PreOrder(cs[0]), PreOrderAll(cs[1..]), q);
      match Traverse(cs[0], q)
      case Some(m) => Some(m)
      case None => TraverseAll(cs[1..], q)
  }

  /** The first match is nil exactly when the list of all matches is empty,
      and otherwise is that list's first element. */
  lemma FirstMatchAgreesWithAll(n: Node, q: Query)
    ensures Traverse(n, q).None? <==> |Collect(n, q)| == 0
    ensures Traverse(n, q).Some? ==> Traverse(n, q).value == Collect(n, q)[0]
  {
  }

  /** A matching root is its own first match; otherwise the first match is the
      first match of the earliest child whose subtree has one. */
  lemma {:induction false} TraverseChildByChild(n: Node, q: Query)
    ensures Matches(n, q) ==> Traverse(n, q) == Some(n)
    ensures !Matches(n, q) && Traverse(n, q).None? ==>
              forall i | 0 <= i < |n.children| :: Traverse(n.children[i], q).None?
    ensures !Matches(n, q) && Traverse(n, q).Some? ==>
              exists i | 0 <= i < |n.children| ::
                && Traverse(n.children[i], q) == Traverse(n, q)
                && forall j | 0 <= j < i :: Traverse(n.children[j], q).None?
  {
    TraverseAllNone(n.children, q);
    TraverseAllSome(n.children, q);
  }

  /** One step of the child loop: the first child's match if it has one,
      otherwise the loop over the remaining children. */
  lemma TraverseAllStep(cs: seq<Node>, q: Query)
    requires |cs| > 0
    ensures Traverse(cs[0], q).Some? ==> TraverseAll(cs, q) == Traverse(cs[0], q)
    ensures Traverse(cs[0], q).None? ==> TraverseAll(cs, q) == TraverseAll(cs[1..], q)
  {
  }

  /** The child loop finds nothing only when no child's subtree has a match. */
  lemma {:induction false} TraverseAllNone(cs: seq<Node>, q: Query)
    ensures TraverseAll(cs, q).None? ==> forall i | 0 <= i < |cs| :: Traverse(cs[i], q).None?
  {
    if |cs| > 0 {
      TraverseAllStep(cs, q);
      if Traverse(cs[0], q).None? {
        var rest := cs[1..];
        TraverseAllNone(rest, q);
        if TraverseAll(cs, q).None? {
          forall i | 1 <= i < |cs| ensures Traverse(cs[i], q).None? {
            assert cs[i] == rest[i - 1];
          }
        }
      }
    }
  }

  /** What the child loop finds is the match of the earliest child whose
      subtree has one. */
  lemma {:induction false} TraverseAllSome(cs: seq<Node>, q: Query)
    ensures TraverseAll(cs, q).Some? ==>
              exists i | 0 <= i < |cs| ::
                && Traverse(cs[i], q) == TraverseAll(cs, q)
                && forall j | 0 <= j < i :: Traverse(cs[j], q).None?
  {
    if |cs| > 0 {
      TraverseAllStep(cs, q);
      if Traverse(cs[0], q).Some? {
        assert Traverse(cs[0], q) == TraverseAll(cs, q);
      } else {
        var rest := cs[1..];
        TraverseAllSome(rest, q);
        if TraverseAll(rest, q).Some? {
          var i :| 0 <= i < |rest| && Traverse(rest[i], q) == TraverseAll(rest, q)
                   && forall j | 0 <= j < i :: Traverse(rest[j], q).None?;
          assert rest[i] == cs[i + 1];
          forall j | 0 <= j < i + 1 ensures Traverse(cs[j], q).None? {
            if j > 0 {
              assert cs[j] == rest[j - 1];
            }
          }
          assert Traverse(cs[i + 1], q) == TraverseAll(cs, q);
        }
      }
    }
  }

  /** The three first-match lookups and two all-matches lookups of the selector file. */
  function GetElementById(n: Node, id: string): Option<Node> {
    Traverse(n, ById(id))
  }

  function GetElementByClass(n: Node, className: string): Option<Node> {
    Traverse(n, ByClass(className))
  }

  function GetElementByTag(n: Node, tag: string): Option<Node> {
    Traverse(n, ByTag(tag))
  }

  function GetElementsByClass(n: Node, className: string): seq<Node> {
    Collect(n, ByClass(className))
  }

  function GetElementsByTag(n: Node, tag: string): seq<Node> {
    Collect(n, ByTag(tag))
  }

  // ---------------------------------------------------------------------------
  // Text
  // ---------------------------------------------------------------------------

  /** The text of a found node, or "" when nothing was found: the
      `if node == nil { return "" }; return GetText(node)` idiom of the extractors. */
  function TextOrEmpty(found: Option<Node>): (r: string)
    ensures found.None? ==> r == ""
    ensures found.Some? ==> r == GetText(found.value)
    ensures IsTrimmed(r)
  {
    match found
    case None => ""
    case Some(n) => GetText(n)
  }

  /** What one child adds to its parent's text: a text node its trimmed
      characters, any other node a single space. */
  function TextPiece(c: Node): string {
    if c.kind == TextNode then TrimSpace(c.data) else " "
  }

  function ChildrenText(cs: seq<Node>): string {
    if |cs| == 0 then "" else TextPiece(cs[0]) + ChildrenText(cs[1..])
  }

  /** The normalised text of a node: the pieces of its direct children, trimmed once more. */
  function GetText(n: Node): (r: string)
    ensures IsTrimmed(r)
    ensures SpacePadded(ChildrenText(n.children), r, LeadingSpaces(ChildrenText(n.children)))
    ensures |n.children| == 0 ==> r == ""
    ensures r == "" <==> AllSpace(ChildrenText(n.children))
  {
    TrimSpace(ChildrenText(n.children))
  }

  /** The children's text is the text of the first children followed by the text of the rest. */
  lemma {:induction false} ChildrenTextConcat(a: seq<Node>, b: seq<Node>)
    ensures ChildrenText(a + b) == ChildrenText(a) + ChildrenText(b)
  {
    if |a| == 0 {
      assert a + b == b;
    } else {
      assert (a + b)[1..] == a[1..] + b;
      ChildrenTextConcat(a[1..], b);
    }
  }

  /** A node none of whose children is a text node has empty text. */
  lemma {:induction false} NoTextChildrenNoText(n: Node)
    requires forall i | 0 <= i < |n.children| :: n.children[i].kind != TextNode
    ensures GetText(n) == ""
  {
    NoTextChildrenAllSpace(n.children);
  }

  lemma {:induction false} NoTextChildrenAllSpace(cs: seq<Node>)
    requires forall i | 0 <= i < |cs| :: cs[i].kind != TextNode
    ensures AllSpace(ChildrenText(cs))
  {
    if |cs| > 0 {
      NoTextChildrenAllSpace(cs[1..]);
      assert ChildrenText(cs) == " " + ChildrenText(cs[1..]);
    }
  }

  /** The text is already trimmed: trimming it again changes nothing. */
  lemma GetTextIdempotent(n: Node)
    ensures TrimSpace(GetText(n)) == GetText(n)
  {
    TrimSpaceIdempotent(ChildrenText(n.children));
  }

  /** Two texts around a line break come out joined by one space: the
      `test1<br/>test2` case gives `"test1 test2"`. */
  lemma GetTextJoinsAroundBreak(a: string, b: string)
    requires !AllSpace(a) && !AllSpace(b)
    ensures GetText(Element("div", [], [Text(a), Element("br", [], []), Text(b)]))
            == TrimSpace(a) + " " + TrimSpace(b)
  {
    BreakPieces(a, b);
    JoinedTrimmed(TrimSpace(a), TrimSpace(b));
    TrimSpaceOfTrimmed(TrimSpace(a) + " " + TrimSpace(b));
  }

  /** The pieces of text, break, text: the trimmed texts around one space. */
  lemma BreakPieces(a: string, b: string)
    ensures ChildrenText([Text(a), Element("br", [], []), Text(b)]) == TrimSpace(a) + " " + TrimSpace(b)
  {
    var br := Element("br", [], []);
    var cs := [Text(a), br, Text(b)];
    assert ChildrenText([Text(b)]) == TrimSpace(b) by {
      assert [Text(b)][1..] == [];
    }
    assert ChildrenText([br, Text(b)]) == " " + TrimSpace(b) by {
      assert [br, Text(b)][1..] == [Text(b)];
    }
    assert cs[1..] == [br, Text(b)];
  }
}
