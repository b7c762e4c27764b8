/** What `to_html` promises, for each node class and for whole trees. */
module HtmlRendering {
  import opened Wrappers
  import opened Attributes
  import opened HtmlNodes

  /** The opening tag, the content and the closing tag, spelled out. */
  lemma Wrap(tag: string, props: Option<Props>, content: string)
    ensures OpenTag(tag, props) + content + CloseTag(tag)
         == "<" + tag + PropsToHtml(props) + ">" + content + "</" + tag + ">"
  {
  }

  /** A bare `HTMLNode` never renders, whatever its attributes. */
  lemma BaseNeverRenders(n: Node)
    requires n.Base?
    ensures ToHtml(n) == Err(NotImplemented)
    ensures ToHtml(n).error.ExceptionClass() == "NotImplementedError"
  {
  }

  /** A leaf whose value is None fails, whatever its tag and props. */
  lemma LeafWithoutValueFails(tag: Option<string>, props: Option<Props>)
    ensures ToHtml(Leaf(tag, None, props)) == Err(LeafWithoutValue)
    ensures ToHtml(Leaf(tag, None, props)).error.Message() == "LeafNodes must have a value"
  {
  }

  /** A leaf without a tag renders exactly its value: no escaping, props ignored. */
  lemma UntaggedLeafIsVerbatim(value: string, props: Option<Props>)
    ensures ToHtml(Leaf(None, Some(value), props)) == Ok(value)
  {
  }

  /** A leaf with a tag and a value wraps the value in that tag, props in the opening tag. */
  lemma TaggedLeafIsWrapped(tag: string, value: string, props: Option<Props>)
    ensures ToHtml(Leaf(Some(tag), Some(value), props))
         == Ok("<" + tag + PropsToHtml(props) + ">" + value + "</" + tag + ">")
  {
    Wrap(tag, props, value);
  }

  /** A parent is checked for its tag first and for its children second. */
  lemma ParentChecksTagThenChildren(tag: string, children: Children, props: Option<Props>)
    ensures ToHtml(Parent(None, children, props)) == Err(ParentWithoutTag)
    ensures ToHtml(Parent(Some(tag), Unset, props)) == Err(ParentWithoutChildren)
  {
  }

  /** An empty list of children is valid and gives the bare tag pair. */
  lemma EmptyParentRendersBareTags(tag: string, props: Option<Props>)
    ensures ToHtml(Parent(Some(tag), List([]), props))
         == Ok("<" + tag + PropsToHtml(props) + "></" + tag + ">")
  {
    ParentRendersChildrenInOrder(tag, [], props, []);
    var p := PropsToHtml(props);
    assert "<" + tag + p + ">" + Concat([]) + "</" + tag + ">" == "<" + tag + p + "></" + tag + ">";
  }

  /** When every rendering succeeds, the accumulation is their concatenation. */
  lemma {:induction false} CollectJoins(outs: seq<Result<string, Error>>, texts: seq<string>)
    requires |texts| == |outs|
    requires forall i :: 0 <= i < |outs| ==> outs[i] == Ok(texts[i])
    ensures Collect(outs) == Ok(Concat(texts))
    decreases |outs|
  {
    if outs != [] {
      CollectJoins(outs[1..], texts[1..]);
    }
  }

  /** The accumulation succeeds exactly when every rendering does. */
  lemma {:induction false} CollectOkIffAllOk(outs: seq<Result<string, Error>>)
    ensures Collect(outs).Ok? <==> forall i :: 0 <= i < |outs| ==> outs[i].Ok?
    decreases |outs|
  {
    if outs != [] {
      CollectOkIffAllOk(outs[1..]);
      assert forall i :: 1 <= i < |outs| ==> outs[i] == outs[1..][i - 1];
    }
  }

  /** The accumulation fails with `e` exactly when the first failing rendering fails with `e`. */
  lemma {:induction false} CollectFailsAtFirstError(outs: seq<Result<string, Error>>, e: Error)
    ensures Collect(outs) == Err(e) <==>
      exists i :: 0 <= i < |outs| && outs[i] == Err(e) && forall j :: 0 <= j < i ==> outs[j].Ok?
    decreases |outs|
  {
    if outs != [] {
      var rest := outs[1..];
      CollectFailsAtFirstError(rest, e);
      if outs[0].Ok? {
        if Collect(outs) == Err(e) {
          var k :| 0 <= k < |rest| && rest[k] == Err(e) && forall j :: 0 <= j < k ==> rest[j].Ok?;
          assert forall j :: 1 <= j < k + 1 ==> outs[j] == rest[j - 1];
          assert outs[k + 1] == Err(e);
        }
        if exists i :: 0 <= i < |outs| && outs[i] == Err(e) && forall j :: 0 <= j < i ==> outs[j].Ok? {
          var i :| 0 <= i < |outs| && outs[i] == Err(e) && forall j :: 0 <= j < i ==> outs[j].Ok?;
          assert i > 0;
          assert forall j :: 0 <= j < i - 1 ==> rest[j] == outs[j + 1];
          assert rest[i - 1] == Err(e);
        }
      } else {
        assert outs[0].Err?;
        if exists i :: 0 <= i < |outs| && outs[i] == Err(e) && forall j :: 0 <= j < i ==> outs[j].Ok? {
          var i :| 0 <= i < |outs| && outs[i] == Err(e) && forall j :: 0 <= j < i ==> outs[j].Ok?;
          assert i == 0;
        }
      }
    }
  }

  /** A parent with a tag and children renders its children exactly as `Collect` accumulates them. */
  lemma ParentUnfolds(tag: string, cs: seq<Node>, props: Option<Props>, outs: seq<Result<string, Error>>)
    requires |outs| == |cs|
    requires forall i :: 0 <= i < |cs| ==> outs[i] == ToHtml(cs[i])
    ensures ToHtml(Parent(Some(tag), List(cs), props)) ==
      match Collect(outs)
      case Err(e) => Err(e)
      case Ok(inner) => Ok(OpenTag(tag, props) + inner + CloseTag(tag))
  {
  }

  /**
    A parent whose children all render gives its opening tag, then every
    child's rendering in order, then its closing tag.
   */
  lemma ParentRendersChildrenInOrder(tag: string, cs: seq<Node>, props: Option<Props>, texts: seq<string>)
    requires |texts| == |cs|
    requires forall i :: 0 <= i < |cs| ==> ToHtml(cs[i]) == Ok(texts[i])
    ensures ToHtml(Parent(Some(tag), List(cs), props))
         == Ok("<" + tag + PropsToHtml(props) + ">" + Concat(texts) + "</" + tag + ">")
  {
    var outs := seq(|cs|, i requires 0 <= i < |cs| => ToHtml(cs[i]));
    ParentUnfolds(tag, cs, props, outs);
    CollectJoins(outs, texts);
    Wrap(tag, props, Concat(texts));
  }

  /**
    A parent with a tag and children fails exactly when one of its children
    fails, and then with the error of the first child that fails.
   */
  lemma ParentFailsWithFirstFailingChild(tag: string, cs: seq<Node>, props: Option<Props>, e: Error)
    ensures ToHtml(Parent(Some(tag), List(cs), props)) == Err(e) <==>
      exists i :: 0 <= i < |cs| && ToHtml(cs[i]) == Err(e) && forall j :: 0 <= j < i ==> ToHtml(cs[j]).Ok?
  {
    var outs := seq(|cs|, i requires 0 <= i < |cs| => ToHtml(cs[i]));
    ParentUnfolds(tag, cs, props, outs);
    CollectFailsAtFirstError(outs, e);
  }

  /** A tree renders exactly when every node in it can render. */
  lemma {:induction false} RendersIffRenderable(n: Node)
    ensures ToHtml(n).Ok? <==> Renderable(n)
    decreases n
  {
    match n
    case Base(_, _, _, _) =>
    case Leaf(_, _, _) =>
    case Parent(tag, children, props) =>
      if tag.Some? && children.List? {
        var cs := children.nodes;
        forall i | 0 <= i < |cs|
          ensures ToHtml(cs[i]).Ok? <==> Renderable(cs[i])
        {
          RendersIffRenderable(cs[i]);
        }
        var outs := seq(|cs|, i requires 0 <= i < |cs| => ToHtml(cs[i]));
        ParentUnfolds(tag.value, cs, props, outs);
        CollectOkIffAllOk(outs);
      }
  }
}
