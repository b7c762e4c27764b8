/**
  The props of an HTML node and their rendering inside an opening tag
  (`HTMLNode.props_to_html` in src/htmlnode.py).
 */
module Attributes {
  import opened Wrappers

  /** No key occurs twice, as in a Python dict. */
  predicate DistinctKeys(ps: seq<(string, string)>) {
    forall i, j :: 0 <= i < j < |ps| ==> ps[i].0 != ps[j].0
  }

  /** A props dict: (key, value) pairs in insertion order, each key once. */
  type Props = ps: seq<(string, string)> | DistinctKeys(ps) witness []

  /** One pair as it appears in an opening tag: ` key="value"`, with no escaping. */
  function Attr(key: string, value: string): string {
    " " + key + "=\"" + value + "\""
  }

  /** The rendering of every pair of `ps`, left to right. */
  function AttrsHtml(ps: seq<(string, string)>): string {
    if ps == [] then "" else Attr(ps[0].0, ps[0].1) + AttrsHtml(ps[1..])
  }

  /**
    `props_to_html`: nothing for absent props, otherwise every pair in
    insertion order. The text is empty exactly when there is no pair to render.
   */
  function PropsToHtml(props: Option<Props>): (r: string)
    ensures props.None? ==> r == ""
    ensures r == "" <==> (props.None? || props.value == [])
  {
    match props
    case None => ""
    case Some(ps) => AttrsHtml(ps)
  }

  /** Rendering a list of pairs is rendering its two halves one after the other. */
  lemma {:induction false} AttrsHtmlAppend(a: seq<(string, string)>, b: seq<(string, string)>)
    ensures AttrsHtml(a + b) == AttrsHtml(a) + AttrsHtml(b)
    decreases |a|
  {
    if a == [] {
      assert a + b == b;
    } else {
      assert (a + b)[1..] == a[1..] + b;
      AttrsHtmlAppend(a[1..], b);
    }
  }

  /**
    The accumulating loop of `props_to_html`: starts from the empty string and
    appends ` key="value"` for each key of the dict in iteration order.
   */
  method PropsToHtmlLoop(props: Option<Props>) returns (s: string)
    ensures s == PropsToHtml(props)
  {
    if props.None? {
      return "";
    }
    var ps := props.value;
    s := "";
    var i := 0;
    while i < |ps|
      invariant 0 <= i <= |ps|
      invariant s == AttrsHtml(ps[..i])
    {
      assert ps[..i + 1] == ps[..i] + [ps[i]];
      AttrsHtmlAppend(ps[..i], [ps[i]]);
      s := s + Attr(ps[i].0, ps[i].1);
      i := i + 1;
    }
    assert ps[..|ps|] == ps;
  }

  /** The single-pair example of test_htmlnode.py. */
  lemma HrefExample()
    ensures PropsToHtml(Some([("href", "https://google.com")])) == " href=\"https://google.com\""
  {
  }

  // A reading of the rendered attribute text, used to show what the rendering preserves.

  /** Splits `s` at the first occurrence of `c`, if there is one. */
  function SplitAt(s: string, c: char): (r: Option<(string, string)>)
    ensures r.None? <==> c !in s
    ensures r.Some? ==> s == r.value.0 + [c] + r.value.1 && c !in r.value.0
  {
    if s == [] then None
    else if s[0] == c then Some(([], s[1..]))
    else
      match SplitAt(s[1..], c)
      case None => None
      case Some(p) => Some(([s[0]] + p.0, p.1))
  }

  /** The first occurrence of `c` is the one right after a `c`-free prefix. */
  lemma {:induction false} SplitAtFirst(x: string, c: char, rest: string)
    requires c !in x
    ensures SplitAt(x + [c] + rest, c) == Some((x, rest))
    decreases |x|
  {
    if x == [] {
      assert x + [c] + rest == [c] + rest;
    } else {
      assert (x + [c] + rest)[1..] == x[1..] + [c] + rest;
      SplitAtFirst(x[1..], c, rest);
      assert [x[0]] + x[1..] == x;
    }
  }

  /** Reads back a sequence of ` key="value"` items. */
  function ParseAttrs(s: string): Option<seq<(string, string)>>
    decreases |s|
  {
    if s == [] then Some([])
    else if s[0] != ' ' then None
    else
      match SplitAt(s[1..], '=')
      case None => None
      case Some((key, afterEq)) =>
        if afterEq == [] || afterEq[0] != '"' then None
        else
          match SplitAt(afterEq[1..], '"')
          case None => None
          case Some((value, rest)) =>
            match ParseAttrs(rest)
            case None => None
            case Some(more) => Some([(key, value)] + more)
  }

  /** No key contains `=` and no value contains a double quote. */
  predicate Unambiguous(ps: seq<(string, string)>) {
    forall i :: 0 <= i < |ps| ==> '=' !in ps[i].0 && '"' !in ps[i].1
  }

  /** Reading one well-formed pair off the front of the text. */
  lemma ParseOnePair(k: string, v: string, tail: string)
    requires '=' !in k && '"' !in v
    ensures ParseAttrs(Attr(k, v) + tail) ==
      match ParseAttrs(tail)
      case None => None
      case Some(more) => Some([(k, v)] + more)
  {
    var afterEq := "\"" + v + "\"" + tail;
    var s := Attr(k, v) + tail;
    assert s[0] == ' ';
    assert s[1..] == k + ['='] + afterEq;
    SplitAtFirst(k, '=', afterEq);
    assert afterEq[1..] == v + ['"'] + tail;
    SplitAtFirst(v, '"', tail);
  }

  /**
    When no key contains `=` and no value contains `"`, the rendered props
    determine the pairs and their order.
   */
  lemma {:induction false} AttrsRoundTrip(ps: seq<(string, string)>)
    requires Unambiguous(ps)
    ensures ParseAttrs(AttrsHtml(ps)) == Some(ps)
    decreases |ps|
  {
    if ps != [] {
      AttrsRoundTrip(ps[1..]);
      ParseOnePair(ps[0].0, ps[0].1, AttrsHtml(ps[1..]));
      assert [ps[0]] + ps[1..] == ps;
    }
  }

  /**
    Without escaping, a double quote in a value can forge a second pair: two
    different dicts render to the same text.
   */
  lemma UnescapedQuoteForgesPair()
    ensures PropsToHtml(Some([("a", "x\" b=\"y")])) == PropsToHtml(Some([("a", "x"), ("b", "y")]))
    ensures [("a", "x\" b=\"y")] != [("a", "x"), ("b", "y")]
  {
  }
}
