/** Inline text spans: `TextType` and `TextNode` of src/textnode.py. */
module TextNodes {
  import opened Wrappers

  /** The six kinds of span. */
  datatype TextType = Normal | Bold | Italic | Code | Links | Images

  /** Every kind, in declaration order. */
  const AllKinds: seq<TextType> := [Normal, Bold, Italic, Code, Links, Images]

  /** The enum member's value: the kind's display string. */
  function Display(k: TextType): string {
    match k
    case Normal => "Normal"
    case Bold => "Bold"
    case Italic => "Italic"
    case Code => "Code"
    case Links => "Links"
    case Images => "Images"
  }

  /** `TextType(s)`: the member whose value is `s`, if there is one. */
  function FromDisplay(s: string): (r: Option<TextType>)
    ensures forall k :: r == Some(k) <==> Display(k) == s
  {
    if s == "Normal" then Some(Normal)
    else if s == "Bold" then Some(Bold)
    else if s == "Italic" then Some(Italic)
    else if s == "Code" then Some(Code)
    else if s == "Links" then Some(Links)
    else if s == "Images" then Some(Images)
    else None
  }

  /** There are exactly six kinds, with six distinct display strings, in this order. */
  lemma SixKinds()
    ensures forall k :: k in AllKinds
    ensures |AllKinds| == 6
    ensures forall i, j :: 0 <= i < j < |AllKinds| ==> Display(AllKinds[i]) != Display(AllKinds[j])
    ensures seq(6, i requires 0 <= i < 6 => Display(AllKinds[i]))
         == ["Normal", "Bold", "Italic", "Code", "Links", "Images"]
  {
    forall k ensures k in AllKinds {
      match k
      case Normal => assert AllKinds[0] == k;
      case Bold => assert AllKinds[1] == k;
      case Italic => assert AllKinds[2] == k;
      case Code => assert AllKinds[3] == k;
      case Links => assert AllKinds[4] == k;
      case Images => assert AllKinds[5] == k;
    }
  }

  /** A span: its text, its kind, and an optional url that defaults to None. */
  datatype TextNode = TextNode(text: string, textType: TextType, url: Option<string> := None)

  /** `TextNode.__eq__` between two text nodes: text, kind and url all equal. */
  predicate TextEq(a: TextNode, b: TextNode)
    ensures TextEq(a, b) <==> a == b
  {
    a.text == b.text && a.textType == b.textType && a.url == b.url
  }

  /** A text node built without a url has url None. */
  lemma UrlDefaultsToNone(text: string, k: TextType)
    ensures TextNode(text, k).url == None
  {
  }

  /** Two text nodes are equal exactly when all three fields are; changing any one breaks it. */
  lemma TextEqIffSameFields(a: TextNode, b: TextNode)
    ensures TextEq(a, b) <==> a == b
    ensures a.text != b.text ==> !TextEq(a, b)
    ensures a.textType != b.textType ==> !TextEq(a, b)
    ensures a.url != b.url ==> !TextEq(a, b)
  {
  }

  /** How a url appears in `repr`: Python prints an absent url as `None`. */
  function UrlText(url: Option<string>): string {
    match url
    case None => "None"
    case Some(u) => u
  }

  /** `repr(node)`: `TextNode(text, Kind, url)`. */
  function Repr(t: TextNode): string {
    "TextNode(" + t.text + ", " + Display(t.textType) + ", " + UrlText(t.url) + ")"
  }

  /** The `repr` example of test_testnode.py. */
  lemma ReprExample()
    ensures Repr(TextNode("This is a text node", Bold, Some("https://www.boot.dev")))
         == "TextNode(This is a text node, Bold, https://www.boot.dev)"
  {
    var t := TextNode("This is a text node", Bold, Some("https://www.boot.dev"));
    assert Repr(t) == "TextNode(" + "This is a text node" + ", " + "Bold" + ", " + "https://www.boot.dev" + ")";
    assert "TextNode(" + "This is a text node" == "TextNode(This is a text node";
    assert "TextNode(This is a text node" + ", " == "TextNode(This is a text node, ";
    assert "TextNode(This is a text node, " + "Bold" == "TextNode(This is a text node, Bold";
    assert "TextNode(This is a text node, Bold" + ", " == "TextNode(This is a text node, Bold, ";
    assert "TextNode(This is a text node, Bold, " + "https://www.boot.dev"
        == "TextNode(This is a text node, Bold, https://www.boot.dev";
  }

  /** In `x + ", " + r` with a comma-free `x`, the first comma sits right after `x`. */
  lemma FirstComma(x: string, r: string)
    requires ',' !in x
    ensures (x + ", " + r)[|x|] == ','
    ensures forall k :: 0 <= k < |x| ==> (x + ", " + r)[k] != ','
  {
  }

  /** Two texts, each without a comma, followed by `, ` are told apart at that comma. */
  lemma SplitAtComma(x1: string, r1: string, x2: string, r2: string)
    requires ',' !in x1 && ',' !in x2
    requires x1 + ", " + r1 == x2 + ", " + r2
    ensures x1 == x2 && r1 == r2
  {
    var s1, s2 := x1 + ", " + r1, x2 + ", " + r2;
    FirstComma(x1, r1);
    FirstComma(x2, r2);
    assert |x1| == |x2|;
    assert x1 == s1[..|x1|] == s2[..|x2|] == x2;
    assert r1 == s1[|x1| + 2..] == s2[|x2| + 2..] == r2;
  }

  /** What follows the fixed prefix `TextNode(` in a `repr`. */
  lemma ReprAfterPrefix(t: TextNode)
    ensures |Repr(t)| >= 9
    ensures Repr(t)[9..] == t.text + ", " + (Display(t.textType) + ", " + (UrlText(t.url) + ")"))
  {
  }

  /**
    When neither text contains a comma, equal `repr`s mean equal text, equal
    kind and equal printed url.
   */
  lemma ReprDeterminesNode(a: TextNode, b: TextNode)
    requires ',' !in a.text && ',' !in b.text
    requires Repr(a) == Repr(b)
    ensures a.text == b.text && a.textType == b.textType
    ensures UrlText(a.url) == UrlText(b.url)
  {
    var ua, ub := UrlText(a.url) + ")", UrlText(b.url) + ")";
    var da, db := Display(a.textType), Display(b.textType);
    ReprAfterPrefix(a);
    ReprAfterPrefix(b);
    SplitAtComma(a.text, da + ", " + ua, b.text, db + ", " + ub);
    assert ',' !in da && ',' !in db;
    SplitAtComma(da, ua, db, ub);
    assert FromDisplay(da) == Some(a.textType);
    assert UrlText(a.url) == ua[..|ua| - 1] == ub[..|ub| - 1] == UrlText(b.url);
  }

  /** `repr` cannot tell an absent url from the url text "None". */
  lemma ReprConflatesAbsentUrl()
    ensures Repr(TextNode("x", Bold, None)) == Repr(TextNode("x", Bold, Some("None")))
    ensures !TextEq(TextNode("x", Bold, None), TextNode("x", Bold, Some("None")))
  {
  }
}
