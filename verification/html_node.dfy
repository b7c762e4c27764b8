/**
  The HTML rendering tree of src/htmlnode.py: the classes `HTMLNode`,
  `LeafNode` and `ParentNode`, and their `to_html` methods.
 */
module HtmlNodes {
  import opened Wrappers
  import opened Attributes

  /**
    The `children` attribute: None (`Unset`) or a Python list of nodes. An
    empty list is a valid value distinct from None.
   */
  datatype Children = Unset | List(nodes: seq<Node>)

  /**
    One node object. The constructor is the node's Python class; each keeps
    the attributes its `__init__` stores, with the same defaults.
   */
  datatype Node =
      /** `HTMLNode`: every attribute defaults to None; it cannot render itself. */
    | Base(tag: Option<string> := None, value: Option<string> := None,
           children: Children := Unset, props: Option<Props> := None)
      /** `LeafNode(tag, value, props=None)`: its children are always None. */
    | Leaf(tag: Option<string>, value: Option<string>, props: Option<Props> := None)
      /** `ParentNode(tag, children, props=None)`: its value is always None. */
    | Parent(tag: Option<string>, children: Children, props: Option<Props> := None)

  /** The `value` attribute, which `ParentNode.__init__` sets to None. */
  function ValueOf(n: Node): Option<string> {
    if n.Parent? then None else n.value
  }

  /** The `children` attribute, which `LeafNode.__init__` sets to None. */
  function ChildrenOf(n: Node): Children {
    if n.Leaf? then Unset else n.children
  }

  /** `HTMLNode()` with no arguments has every attribute None. */
  lemma BaseDefaultsToNone()
    ensures Base().tag == None && Base().value == None
    ensures Base().children == Unset && Base().props == None
  {
  }

  /**
    A leaf never has children and a parent never has a value, and both take
    no props unless given some.
   */
  lemma SubclassesFixOneAttribute(tag: Option<string>, value: Option<string>, children: Children)
    ensures ChildrenOf(Leaf(tag, value)) == Unset && Leaf(tag, value).props == None
    ensures ValueOf(Parent(tag, children)) == None && Parent(tag, children).props == None
  {
  }

  /** The exceptions `to_html` raises. */
  datatype Error =
    | NotImplemented
    | LeafWithoutValue
    | ParentWithoutTag
    | ParentWithoutChildren
  {
    /** The Python exception class raised. */
    function ExceptionClass(): string {
      if NotImplemented? then "NotImplementedError" else "ValueError"
    }

    /** The message the exception carries. */
    function Message(): string {
      match this
      case NotImplemented => "to_html method not implemented"
      case LeafWithoutValue => "LeafNodes must have a value"
      case ParentWithoutTag => "ParentNodes must have a tag"
      case ParentWithoutChildren => "ParentNodes must have children"
    }
  }

  /** `<tag props>`: the tag name followed by the rendered props. */
  function OpenTag(tag: string, props: Option<Props>): string {
    "<" + tag + PropsToHtml(props) + ">"
  }

  /** `</tag>`. */
  function CloseTag(tag: string): string {
    "</" + tag + ">"
  }

  /** The strings of `ss` joined left to right with nothing in between. */
  function Concat(ss: seq<string>): string {
    if ss == [] then "" else ss[0] + Concat(ss[1..])
  }

  /**
    The children's renderings accumulated in order: the first failure
    propagates, and otherwise the texts are joined.
   */
  function Collect(outs: seq<Result<string, Error>>): Result<string, Error> {
    if outs == [] then Ok("")
    else
      match outs[0]
      case Err(e) => Err(e)
      case Ok(s) =>
        match Collect(outs[1..])
        case Err(e) => Err(e)
        case Ok(t) => Ok(s + t)
  }

  /** `to_html`, dispatched on the node's class. No text is escaped. */
  function ToHtml(n: Node): Result<string, Error>
    decreases n
  {
    match n
    case Base(_, _, _, _) => Err(NotImplemented)
    case Leaf(tag, value, props) =>
      if value.None? then Err(LeafWithoutValue)
      else if tag.None? then Ok(value.value)
      else Ok(OpenTag(tag.value, props) + value.value + CloseTag(tag.value))
    case Parent(tag, children, props) =>
      if tag.None? then Err(ParentWithoutTag)
      else if children.Unset? then Err(ParentWithoutChildren)
      else
        var cs := children.nodes;
        match Collect(seq(|cs|, i requires 0 <= i < |cs| => ToHtml(cs[i])))
        case Err(e) => Err(e)
        case Ok(inner) => Ok(OpenTag(tag.value, props) + inner + CloseTag(tag.value))
  }

  /**
    A tree every node of which can render: leaves carry a value, parents carry
    a tag and children, and no node is a bare `HTMLNode`.
   */
  predicate Renderable(n: Node)
    decreases n
  {
    match n
    case Base(_, _, _, _) => false
    case Leaf(_, value, _) => value.Some?
    case Parent(tag, children, _) =>
      && tag.Some?
      && children.List?
      && forall i :: 0 <= i < |children.nodes| ==> Renderable(children.nodes[i])
  }
}
