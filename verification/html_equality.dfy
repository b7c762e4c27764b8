/**
  `HTMLNode.__eq__` (src/htmlnode.py): structural equality over class, tag,
  value and children. The props are never compared: where a props test would
  be expected, the source repeats the value test.
 */
module HtmlEquality {
  import opened Wrappers
  import opened Attributes
  import opened HtmlNodes
  import opened HtmlRendering

  /** Both nodes are instances of the same Python class. */
  predicate SameClass(a: Node, b: Node) {
    || (a.Base? && b.Base?)
    || (a.Leaf? && b.Leaf?)
    || (a.Parent? && b.Parent?)
  }

  /**
    `a == b` for two nodes: same class, equal tag, equal value, and children
    lists of the same length whose elements are pairwise `==`.
   */
  predicate NodeEq(a: Node, b: Node)
    decreases a
  {
    && SameClass(a, b)
    && a.tag == b.tag
    && ValueOf(a) == ValueOf(b)
    && (|| a.Leaf?
        || match a.children
           case Unset => ChildrenOf(b).Unset?
           case List(xs) =>
             && ChildrenOf(b).List?
             && |xs| == |ChildrenOf(b).nodes|
             && forall i :: 0 <= i < |xs| ==> NodeEq(xs[i], ChildrenOf(b).nodes[i]))
  }

  /** The same tree with the props of every node set to None. */
  function EraseProps(n: Node): Node
    decreases n, 1
  {
    match n
    case Base(tag, value, children, _) => Base(tag, value, EraseChildren(children), None)
    case Leaf(tag, value, _) => Leaf(tag, value, None)
    case Parent(tag, children, _) => Parent(tag, EraseChildren(children), None)
  }

  /** A children attribute with the props of every node in it set to None. */
  function EraseChildren(children: Children): Children
    decreases children, 0
  {
    match children
    case Unset => Unset
    case List(xs) => List(seq(|xs|, i requires 0 <= i < |xs| => EraseProps(xs[i])))
  }

  /** The node with its own props replaced by `p`; its children keep theirs. */
  function WithProps(n: Node, p: Option<Props>): Node {
    match n
    case Base(tag, value, children, _) => Base(tag, value, children, p)
    case Leaf(tag, value, _) => Leaf(tag, value, p)
    case Parent(tag, children, _) => Parent(tag, children, p)
  }

  /** Children lists that are pairwise `==` are equal once their props are dropped, and back. */
  lemma {:induction false} ChildrenEqIffEqualWithoutProps(xs: seq<Node>, ys: seq<Node>)
    requires |xs| == |ys|
    requires forall i :: 0 <= i < |xs| ==> (NodeEq(xs[i], ys[i]) <==> EraseProps(xs[i]) == EraseProps(ys[i]))
    ensures (forall i :: 0 <= i < |xs| ==> NodeEq(xs[i], ys[i])) <==>
      seq(|xs|, i requires 0 <= i < |xs| => EraseProps(xs[i])) == seq(|ys|, i requires 0 <= i < |ys| => EraseProps(ys[i]))
  {
    var ex := seq(|xs|, i requires 0 <= i < |xs| => EraseProps(xs[i]));
    var ey := seq(|ys|, i requires 0 <= i < |ys| => EraseProps(ys[i]));
    if ex == ey {
      forall i | 0 <= i < |xs| ensures NodeEq(xs[i], ys[i]) {
        assert ex[i] == ey[i];
      }
    }
  }

  /**
    Two nodes are `==` exactly when they coincide once every prop at every
    depth is dropped: equality is structural and blind to props.
   */
  lemma {:induction false} NodeEqIffEqualWithoutProps(a: Node, b: Node)
    ensures NodeEq(a, b) <==> EraseProps(a) == EraseProps(b)
    decreases a
  {
    if SameClass(a, b) && !a.Leaf? && a.children.List? && b.children.List? {
      var xs, ys := a.children.nodes, b.children.nodes;
      if |xs| == |ys| {
        forall i | 0 <= i < |xs|
          ensures NodeEq(xs[i], ys[i]) <==> EraseProps(xs[i]) == EraseProps(ys[i])
        {
          NodeEqIffEqualWithoutProps(xs[i], ys[i]);
        }
        ChildrenEqIffEqualWithoutProps(xs, ys);
      } else {
        assert EraseProps(a).children == EraseChildren(a.children);
        assert EraseProps(b).children == EraseChildren(b.children);
        assert |EraseChildren(a.children).nodes| != |EraseChildren(b.children).nodes|;
      }
    }
  }

  /** `==` on nodes is reflexive, symmetric and transitive. */
  lemma NodeEqIsEquivalence()
    ensures forall a :: NodeEq(a, a)
    ensures forall a, b :: NodeEq(a, b) ==> NodeEq(b, a)
    ensures forall a, b, c :: NodeEq(a, b) && NodeEq(b, c) ==> NodeEq(a, c)
  {
    forall a, b {
      NodeEqIffEqualWithoutProps(a, b);
    }
  }

  /** Replacing a node's props keeps it equal to the original. */
  lemma PropsNeverCompared(a: Node, p: Option<Props>)
    ensures NodeEq(a, WithProps(a, p))
  {
    NodeEqIffEqualWithoutProps(a, WithProps(a, p));
  }

  /** A leaf and a parent are never equal, even when all their attributes agree. */
  lemma ClassesNeverEqual(tag: Option<string>, p: Option<Props>, q: Option<Props>)
    ensures ValueOf(Leaf(tag, None, p)) == ValueOf(Parent(tag, Unset, q))
    ensures ChildrenOf(Leaf(tag, None, p)) == ChildrenOf(Parent(tag, Unset, q))
    ensures !NodeEq(Leaf(tag, None, p), Parent(tag, Unset, q))
  {
  }

  /** Two equal nodes may still render differently, through their props. */
  lemma EqualNodesCanRenderDifferently()
    ensures NodeEq(Leaf(Some("a"), Some("x"), Some([("href", "u")])), Leaf(Some("a"), Some("x"), None))
    ensures ToHtml(Leaf(Some("a"), Some("x"), Some([("href", "u")]))) == Ok("<a href=\"u\">x</a>")
    ensures ToHtml(Leaf(Some("a"), Some("x"), None)) == Ok("<a>x</a>")
  {
    var p: Option<Props> := Some([("href", "u")]);
    TaggedLeafIsWrapped("a", "x", p);
    TaggedLeafIsWrapped("a", "x", None);
    assert AttrsHtml([("href", "u")]) == Attr("href", "u") + AttrsHtml([]);
    assert PropsToHtml(p) == " href=\"u\"";
    assert "<" + "a" + " href=\"u\"" + ">" + "x" + "</" + "a" + ">" == "<a href=\"u\">x</a>";
    assert "<" + "a" + "" + ">" + "x" + "</" + "a" + ">" == "<a>x</a>";
  }

  /** Both results fail, and with the same error, or both succeed. */
  predicate SameFailure(r: Result<string, Error>, s: Result<string, Error>) {
    && (r.Err? <==> s.Err?)
    && (r.Err? ==> r.error == s.error)
  }

  /** Accumulations of pairwise alike renderings are alike. */
  lemma {:induction false} CollectSameFailure(xs: seq<Result<string, Error>>, ys: seq<Result<string, Error>>)
    requires |xs| == |ys|
    requires forall i :: 0 <= i < |xs| ==> SameFailure(xs[i], ys[i])
    ensures SameFailure(Collect(xs), Collect(ys))
    decreases |xs|
  {
    if xs != [] {
      CollectSameFailure(xs[1..], ys[1..]);
    }
  }

  /** Props never make rendering fail, nor change which error it fails with. */
  lemma {:induction false} PropsNeverCauseFailure(n: Node)
    ensures SameFailure(ToHtml(n), ToHtml(EraseProps(n)))
    decreases n
  {
    match n
    case Base(_, _, _, _) =>
    case Leaf(_, _, _) =>
    case Parent(tag, children, props) =>
      if tag.Some? && children.List? {
        var xs := children.nodes;
        var ex := seq(|xs|, i requires 0 <= i < |xs| => EraseProps(xs[i]));
        assert EraseProps(n) == Parent(tag, List(ex), None);
        var outs := seq(|xs|, i requires 0 <= i < |xs| => ToHtml(xs[i]));
        var eouts := seq(|ex|, i requires 0 <= i < |ex| => ToHtml(ex[i]));
        forall i | 0 <= i < |xs|
          ensures SameFailure(outs[i], eouts[i])
        {
          PropsNeverCauseFailure(xs[i]);
        }
        ParentUnfolds(tag.value, xs, props, outs);
        ParentUnfolds(tag.value, ex, None, eouts);
        CollectSameFailure(outs, eouts);
      }
  }

  /** Equal nodes both render or both fail, and then with the same error. */
  lemma EqualNodesFailAlike(a: Node, b: Node)
    requires NodeEq(a, b)
    ensures ToHtml(a).Err? <==> ToHtml(b).Err?
    ensures ToHtml(a).Err? ==> ToHtml(a).error == ToHtml(b).error
  {
    NodeEqIffEqualWithoutProps(a, b);
    PropsNeverCauseFailure(a);
    PropsNeverCauseFailure(b);
  }
}
