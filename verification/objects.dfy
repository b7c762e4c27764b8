/**
  Python's `==` across the objects of this model. Both `__eq__` methods start
  with `type(self) is not type(other)` and answer False for any other class;
  `str` and None compare only with their own kind, so every cross-class
  comparison is False in either order.
 */
module PyObjects {
  import opened Wrappers
  import opened HtmlNodes
  import opened HtmlEquality
  import opened TextNodes

  /** The values that can meet in a comparison. */
  datatype Object = NoneObject | Str(s: string) | Html(node: Node) | Text(textNode: TextNode)

  /** `HTMLNode.__eq__(self, other)`. */
  predicate HtmlNodeEquals(self: Node, other: Object) {
    other.Html? && NodeEq(self, other.node)
  }

  /** `TextNode.__eq__(self, other)`. */
  predicate TextNodeEquals(self: TextNode, other: Object) {
    other.Text? && TextEq(self, other.textNode)
  }

  /** `a == b`. */
  predicate Equals(a: Object, b: Object) {
    match a
    case NoneObject => b.NoneObject?
    case Str(s) => b.Str? && b.s == s
    case Html(n) => HtmlNodeEquals(n, b)
    case Text(t) => TextNodeEquals(t, b)
  }

  /** A text node is never equal to an object of another class, in either order. */
  lemma TextNodeOnlyEqualsTextNodes(t: TextNode, o: Object)
    ensures Equals(Text(t), o) ==> o.Text?
    ensures Equals(o, Text(t)) ==> o.Text?
  {
  }

  /** `==` over these objects is reflexive, symmetric and transitive. */
  lemma EqualsIsEquivalence()
    ensures forall a :: Equals(a, a)
    ensures forall a, b :: Equals(a, b) ==> Equals(b, a)
    ensures forall a, b, c :: Equals(a, b) && Equals(b, c) ==> Equals(a, c)
  {
    NodeEqIsEquivalence();
  }

  /** The comparisons of test_testnode.py. */
  lemma TextNodeComparisons()
    ensures Equals(Text(TextNode("This is a text node", Bold)), Text(TextNode("This is a text node", Bold)))
    ensures !Equals(Text(TextNode("This is a text node", Italic)),
                    Text(TextNode("This is a different text node", Italic)))
    ensures !Equals(Text(TextNode("This is a text node", Italic)), Text(TextNode("This is a text node", Bold)))
    ensures !Equals(Text(TextNode("This is a text node", Bold, Some("https://boot.dev"))),
                    Text(TextNode("This is a text node", Bold)))
  {
  }
}
