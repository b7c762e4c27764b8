/**
  The visible text of a rendered tree. Because no text is escaped, reading the
  rendering back gives the leaves' values only when no value contains `<` and
  no tag name or prop contains `>`.
 */
module HtmlText {
  import opened Wrappers
  import opened Attributes
  import opened HtmlNodes
  import opened HtmlRendering

  /**
    Reads `s` from the given state (inside a tag or not): the characters that
    lie outside tags, and whether the text ends inside a tag.
   */
  function Scan(s: string, inTag: bool): (string, bool)
    decreases |s|
  {
    if s == [] then ("", inTag)
    else if inTag then Scan(s[1..], s[0] != '>')
    else if s[0] == '<' then Scan(s[1..], true)
    else
      var r := Scan(s[1..], false);
      ([s[0]] + r.0, r.1)
  }

  /** The text of `s` with every `<...>` tag removed. */
  function StripTags(s: string): string {
    Scan(s, false).0
  }

  /** The leaves' values in document order. */
  function TextContent(n: Node): string
    decreases n
  {
    match n
    case Base(_, _, _, _) => ""
    case Leaf(_, value, _) => if value.Some? then value.value else ""
    case Parent(_, children, _) =>
      if children.Unset? then ""
      else Concat(seq(|children.nodes|, i requires 0 <= i < |children.nodes| => TextContent(children.nodes[i])))
  }

  /** No key or value of the props contains `>`. */
  predicate PropsWithoutGt(props: Option<Props>) {
    props.Some? ==> forall i :: 0 <= i < |props.value| ==> '>' !in props.value[i].0 && '>' !in props.value[i].1
  }

  /**
    Every rendered tag name and prop is free of `>` and every leaf value is
    free of `<`, so that no text can be mistaken for markup.
   */
  predicate MarkupSeparable(n: Node)
    decreases n
  {
    match n
    case Base(_, _, _, _) => true
    case Leaf(tag, value, props) =>
      && (tag.Some? ==> '>' !in tag.value && PropsWithoutGt(props))
      && (value.Some? ==> '<' !in value.value)
    case Parent(tag, children, props) =>
      && (tag.Some? ==> '>' !in tag.value)
      && PropsWithoutGt(props)
      && (children.List? ==> forall i :: 0 <= i < |children.nodes| ==> MarkupSeparable(children.nodes[i]))
  }

  /** Reading two texts in a row is reading the first, then the second from where the first ended. */
  lemma {:induction false} ScanAppend(a: string, b: string, st: bool)
    ensures Scan(a + b, st) == (Scan(a, st).0 + Scan(b, Scan(a, st).1).0, Scan(b, Scan(a, st).1).1)
    decreases |a|
  {
    if a == [] {
      assert a + b == b;
      assert "" + Scan(b, st).0 == Scan(b, st).0;
    } else {
      assert (a + b)[0] == a[0];
      assert (a + b)[1..] == a[1..] + b;
      if st {
        ScanAppend(a[1..], b, a[0] != '>');
      } else if a[0] == '<' {
        ScanAppend(a[1..], b, true);
      } else {
        ScanAppend(a[1..], b, false);
        var r := Scan(a[1..], false);
        assert [a[0]] + (r.0 + Scan(b, r.1).0) == ([a[0]] + r.0) + Scan(b, r.1).0;
      }
    }
  }

  /** Text without `<` is read as it is. */
  lemma {:induction false} ScanPlain(x: string)
    requires '<' !in x
    ensures Scan(x, false) == (x, false)
    decreases |x|
  {
    if x != [] {
      ScanPlain(x[1..]);
      assert [x[0]] + x[1..] == x;
    }
  }

  /** Inside a tag, text without `>` yields nothing and stays inside the tag. */
  lemma {:induction false} ScanInsideTag(x: string)
    requires '>' !in x
    ensures Scan(x, true) == ("", true)
    decreases |x|
  {
    if x != [] {
      ScanInsideTag(x[1..]);
    }
  }

  /** A tag `<x>` with no `>` in `x` yields nothing and leaves the text outside tags. */
  lemma ScanTag(x: string)
    requires '>' !in x
    ensures Scan("<" + x + ">", false) == ("", false)
  {
    assert "<" + x + ">" == "<" + (x + ">");
    assert ("<" + (x + ">"))[1..] == x + ">";
    ScanAppend(x, ">", true);
    ScanInsideTag(x);
  }

  /** A character that is in none of the keys and values, and not one of ` ="`, is not in the rendering. */
  lemma {:induction false} AttrsAvoid(ps: seq<(string, string)>, c: char)
    requires c != ' ' && c != '=' && c != '"'
    requires forall i :: 0 <= i < |ps| ==> c !in ps[i].0 && c !in ps[i].1
    ensures c !in AttrsHtml(ps)
    decreases |ps|
  {
    if ps != [] {
      AttrsAvoid(ps[1..], c);
      assert AttrsHtml(ps) == " " + ps[0].0 + "=\"" + ps[0].1 + "\"" + AttrsHtml(ps[1..]);
    }
  }

  /** Reading a sequence of texts that each read cleanly gives the concatenation of what each yields. */
  lemma {:induction false} ScanConcat(texts: seq<string>, visible: seq<string>)
    requires |texts| == |visible|
    requires forall i :: 0 <= i < |texts| ==> Scan(texts[i], false) == (visible[i], false)
    ensures Scan(Concat(texts), false) == (Concat(visible), false)
    decreases |texts|
  {
    if texts != [] {
      ScanConcat(texts[1..], visible[1..]);
      ScanAppend(texts[0], Concat(texts[1..]), false);
    }
  }

  /** Wrapping text in a tag pair whose markup holds no `>` hides the tags only. */
  lemma ScanWrapped(tag: string, props: Option<Props>, content: string, visible: string)
    requires '>' !in tag && PropsWithoutGt(props)
    requires Scan(content, false) == (visible, false)
    ensures Scan("<" + tag + PropsToHtml(props) + ">" + content + "</" + tag + ">", false) == (visible, false)
  {
    var p := PropsToHtml(props);
    if props.Some? {
      AttrsAvoid(props.value, '>');
    }
    var open := "<" + (tag + p) + ">";
    var close := "<" + ("/" + tag) + ">";
    ScanTag(tag + p);
    ScanTag("/" + tag);
    ScanAppend(open, content, false);
    assert Scan(open + content, false) == ("" + visible, false);
    assert "" + visible == visible;
    ScanAppend(open + content, close, false);
    assert visible + "" == visible;
    assert "<" + tag + p + ">" + content + "</" + tag + ">" == open + content + close;
  }

  /**
    When no value contains `<` and no tag name or prop contains `>`, removing
    the tags from a renderable tree's rendering gives exactly the leaves'
    values, in document order.
   */
  lemma {:induction false} StripTagsRecoversText(n: Node)
    requires Renderable(n) && MarkupSeparable(n)
    ensures ToHtml(n).Ok?
    ensures Scan(ToHtml(n).value, false) == (TextContent(n), false)
    ensures StripTags(ToHtml(n).value) == TextContent(n)
    decreases n
  {
    RendersIffRenderable(n);
    match n
    case Leaf(tag, value, props) =>
      if tag.None? {
        ScanPlain(value.value);
      } else {
        TaggedLeafIsWrapped(tag.value, value.value, props);
        ScanPlain(value.value);
        ScanWrapped(tag.value, props, value.value, value.value);
      }
    case Parent(tag, children, props) =>
      var cs := children.nodes;
      forall i | 0 <= i < |cs|
        ensures ToHtml(cs[i]).Ok? && Scan(ToHtml(cs[i]).value, false) == (TextContent(cs[i]), false)
      {
        StripTagsRecoversText(cs[i]);
      }
      var texts := seq(|cs|, i requires 0 <= i < |cs| => ToHtml(cs[i]).value);
      var visible := seq(|cs|, i requires 0 <= i < |cs| => TextContent(cs[i]));
      ParentRendersChildrenInOrder(tag.value, cs, props, texts);
      ScanConcat(texts, visible);
      ScanWrapped(tag.value, props, Concat(texts), Concat(visible));
  }

  /** Text that looks like markup is not escaped, so stripping tags loses it. */
  lemma UnescapedTextReadsAsMarkup()
    ensures ToHtml(Leaf(None, Some("a<b>c"))) == Ok("a<b>c")
    ensures TextContent(Leaf(None, Some("a<b>c"))) == "a<b>c"
    ensures StripTags("a<b>c") == "ac"
  {
    assert "a<b>c"[1..] == "<b>c";
    assert "<b>c"[1..] == "b>c";
    assert "b>c"[1..] == ">c";
    assert ">c"[1..] == "c";
    assert "c"[1..] == "";
  }
}
