# Static_Site: HTML tree and text spans

A Dafny model of the two data classes at the bottom of the static-site
generator: the HTML rendering tree (`HTMLNode`, `LeafNode`, `ParentNode` in
`src/htmlnode.py`) and the inline text span (`TextType`, `TextNode` in
`src/textnode.py`).

Files, one module each:

- `wrappers.dfy`: `Option` (Python's None or a value) and `Result` (a value or a raised error).
- `attributes.dfy` (`Attributes`): props as an ordered list of pairs with distinct keys (a Python dict in insertion order), and `props_to_html`. It also holds a reader for the rendered text, used to show what the rendering keeps.
- `html_node.dfy` (`HtmlNodes`): the node datatype, one constructor per Python class, with the same constructor defaults. It also holds the errors `to_html` raises, with their exception class and message, and `to_html` itself as `ToHtml`.
- `html_render.dfy` (`HtmlRendering`): what rendering promises for each class and for whole trees.
- `html_text.dfy` (`HtmlText`): the visible text of a tree, and what removing tags from a rendering gives back.
- `html_equality.dfy` (`HtmlEquality`): `HTMLNode.__eq__`.
- `text_node.dfy` (`TextNodes`): `TextType`, `TextNode`, its equality and `repr`.
- `objects.dfy` (`PyObjects`): `==` between objects of different classes.

Modelling choices:

- A node's `children` attribute is the datatype `Children = Unset | List(nodes)`. `Unset` is None. An empty list is a separate, valid value. A dedicated datatype, rather than `Option<seq<Node>>`, lets Dafny see that a child is smaller than its parent.
- `ParentNode.to_html` appends each child's rendering in a loop, and the first exception aborts it. Rendering is pure, so `ToHtml` instead renders every child and then `Collect` walks the results in order. It returns the first failure, or else the concatenated texts. The results are the same.
- No text is escaped anywhere, as in the source. Several lemmas show what that costs: forged attribute pairs, text read as markup, and `repr` ambiguity.
- Equality is modelled as written. The second half of the test on `src/htmlnode.py:23-24` repeats `self.value == other.value` where a props test would be expected. So props are never compared, at any depth. `NodeEqIffEqualWithoutProps` states this exactly.
- Children are always required to be nodes. A Python list could hold any object.
- An empty children list is valid and renders `<tag></tag>` (`EmptyParentRendersBareTags`).

## Model

| member | source | states |
|---|---|---|
| Attributes.PropsToHtml | src/htmlnode.py:12-18 | absent props give the empty string, and the text is empty exactly when there is no pair; the full contract is carried by `PropsToHtmlLoop`, `AttrsHtmlAppend` and `AttrsRoundTrip` |
| HtmlNodes.ToHtml | src/htmlnode.py:36-60 | `to_html` of all three classes; its contract is carried by `BaseNeverRenders`, the three leaf lemmas, `ParentChecksTagThenChildren`, `ParentRendersChildrenInOrder`, `ParentFailsWithFirstFailingChild`, `RendersIffRenderable` and `StripTagsRecoversText` |
| HtmlNodes.Collect | src/htmlnode.py:57-58 | the children loop: it fails exactly when some rendering fails, with the first failure's error, and otherwise joins the texts in order; carried by `CollectFailsAtFirstError`, `CollectOkIffAllOk` and `CollectJoins` |
| HtmlEquality.NodeEq | src/htmlnode.py:20-26 | `HTMLNode.__eq__`; its contract is carried by `NodeEqIffEqualWithoutProps`, `NodeEqIsEquivalence`, `PropsNeverCompared`, `ClassesNeverEqual` and `EqualNodesFailAlike` |
| TextNodes.Display | src/textnode.py:3-9 | the enum values; carried by `SixKinds`, with `FromDisplay` as its inverse |
| TextNodes.TextEq | src/textnode.py:18-25 | two text nodes are equal exactly when they are the same value, that is, when text, kind and url all agree |
| TextNodes.Repr | src/textnode.py:27-28 | `__repr__`; carried by `ReprExample`, `ReprDeterminesNode` and `ReprConflatesAbsentUrl` |
| PyObjects.Equals | src/textnode.py:18-20 | Python `==` across classes; carried by `TextNodeOnlyEqualsTextNodes`, `EqualsIsEquivalence` and `TextNodeComparisons` |
| Attributes.PropsToHtmlLoop | src/htmlnode.py:12-18 | absent props render as the empty string; otherwise the result is ` key="value"` for every pair, concatenated in insertion order |
| Attributes.AttrsHtmlAppend | src/htmlnode.py:15-18 | rendering two pair lists one after the other is rendering their concatenation, which is what the accumulating loop relies on |
| Attributes.HrefExample | src/test_htmlnode.py:20-22 | a single `href` pair renders as ` href="https://google.com"` |
| Attributes.AttrsRoundTrip | src/htmlnode.py:15-18 | when no key contains `=` and no value contains `"`, the rendered props can be read back into exactly the original pairs, in order |
| Attributes.UnescapedQuoteForgesPair | src/htmlnode.py:17 | values are not escaped: a value holding `" b="` renders the same as a dict with a second pair |
| HtmlNodes.BaseDefaultsToNone | src/htmlnode.py:3-7 | `HTMLNode()` has tag, value, children and props all None |
| HtmlNodes.SubclassesFixOneAttribute | src/htmlnode.py:31-49 | a `LeafNode` has no children, a `ParentNode` has no value, and props default to None in both |
| HtmlRendering.BaseNeverRenders | src/htmlnode.py:9-10 | a bare `HTMLNode` always fails with NotImplementedError, whatever its attributes |
| HtmlRendering.LeafWithoutValueFails | src/htmlnode.py:37-38 | a leaf whose value is None fails with "LeafNodes must have a value", whatever its tag and props |
| HtmlRendering.UntaggedLeafIsVerbatim | src/htmlnode.py:39-40 | a leaf with a value and no tag renders exactly its value, unescaped, and its props are ignored |
| HtmlRendering.TaggedLeafIsWrapped | src/htmlnode.py:41 | a leaf with a tag and a value renders `<` tag props `>` value `</` tag `>` |
| HtmlRendering.ParentChecksTagThenChildren | src/htmlnode.py:52-55 | a parent without a tag fails with the tag error even when its children are missing too; with a tag but no children it fails with the children error |
| HtmlRendering.EmptyParentRendersBareTags | src/htmlnode.py:56-60 | an empty children list is valid and renders `<tag props></tag>` |
| HtmlRendering.ParentRendersChildrenInOrder | src/htmlnode.py:56-60 | when every child renders, the parent renders its open tag, then the children's renderings in order, then its close tag |
| HtmlRendering.ParentFailsWithFirstFailingChild | src/htmlnode.py:57-58 | a parent with tag and children fails with error e exactly when some child fails with e and every earlier child renders |
| HtmlRendering.CollectFailsAtFirstError | src/htmlnode.py:57-58 | accumulating renderings in order fails with e exactly when the first failing one fails with e |
| HtmlRendering.RendersIffRenderable | src/htmlnode.py:36-60 | a tree renders exactly when no node is a bare `HTMLNode`, every leaf has a value and every parent has a tag and children |
| HtmlText.StripTagsRecoversText | src/htmlnode.py:36-60 | if no leaf value contains `<` and no tag or prop contains `>`, removing the tags from a renderable tree's output gives exactly its leaf values in document order |
| HtmlText.UnescapedTextReadsAsMarkup | src/htmlnode.py:39-40 | a value containing `<b>` is emitted verbatim, so removing tags from the output loses it |
| HtmlEquality.NodeEqIffEqualWithoutProps | src/htmlnode.py:20-26 | two nodes are `==` exactly when they are identical once every prop at every depth is dropped: same class, tag and value, and pairwise-equal children |
| HtmlEquality.NodeEqIsEquivalence | src/htmlnode.py:20-26 | node `==` is reflexive, symmetric and transitive |
| HtmlEquality.PropsNeverCompared | src/htmlnode.py:23-24 | replacing a node's props never breaks equality with the original |
| HtmlEquality.ClassesNeverEqual | src/htmlnode.py:21-22 | a leaf and a parent with equal tag, value and children are still not equal, because their classes differ |
| HtmlEquality.EqualNodesCanRenderDifferently | src/htmlnode.py:20-26 | two equal leaves can render different HTML, through their props |
| HtmlEquality.PropsNeverCauseFailure | src/htmlnode.py:36-60 | dropping every prop changes neither whether a tree renders nor the error it fails with |
| HtmlEquality.EqualNodesFailAlike | src/htmlnode.py:20-26 | equal nodes either both render or both fail with the same error |
| TextNodes.FromDisplay | src/textnode.py:3-9 | looking up a kind by display string returns k exactly when k's display string is the one given, and nothing for any other string |
| TextNodes.SixKinds | src/textnode.py:3-9 | there are exactly six kinds, with the distinct display strings Normal, Bold, Italic, Code, Links, Images |
| TextNodes.UrlDefaultsToNone | src/textnode.py:13-16 | a text node built without a url has url None |
| TextNodes.TextEqIffSameFields | src/textnode.py:18-25 | two text nodes are equal exactly when text, kind and url all agree; changing any one breaks equality |
| TextNodes.ReprExample | src/test_testnode.py:31-35 | the repr of the test's bold node with a url is `TextNode(This is a text node, Bold, https://www.boot.dev)` |
| TextNodes.ReprDeterminesNode | src/textnode.py:27-28 | when neither text contains a comma, equal reprs mean equal text, equal kind and equal printed url |
| TextNodes.ReprConflatesAbsentUrl | src/textnode.py:27-28 | the repr prints an absent url as `None`, so it cannot tell it from the url text "None" |
| PyObjects.TextNodeOnlyEqualsTextNodes | src/textnode.py:18-20 | a text node compared with an object of any other class is unequal, in either order |
| PyObjects.EqualsIsEquivalence | src/textnode.py:18-25 | `==` over None, strings, HTML nodes and text nodes is reflexive, symmetric and transitive |
| PyObjects.TextNodeComparisons | src/test_testnode.py:7-25 | the test's pairs: same fields are equal; a different text, kind or url is not |

## Left out

- `HTMLNode.__repr__`, `LeafNode.__repr__`, `ParentNode.__repr__` (src/htmlnode.py:28-29, 43-44, 62-63): their output depends on Python's `repr` of lists and dicts, which has no faithful counterpart here.
- src/main.py: copying and deleting directories is file-system I/O.
- The Markdown functions imported by src/test_functions.py (delimiter splitting, link and image extraction, block segmentation and classification, `text_node_to_html_node`) are not part of this model. They are outside the two data classes modelled here.
- Values other than strings in `tag`, `value` and props: the source formats them with `str`, but only string values are modelled.
- Objects other than nodes inside a children list, and Python's identity shortcut in list comparison. The shortcut gives the same answer because node equality is reflexive.
- Python's recursion limit and cyclic children lists: `ParentNode.to_html` and `__eq__` recurse once per nesting level (src/htmlnode.py:24, 58). So in Python a tree nested deeper than the interpreter's recursion limit (1000 by default) raises RecursionError. So does a children list that has been mutated to contain one of its ancestors. Trees here are finite and acyclic and every function is total, so `RendersIffRenderable` and the equality lemmas do not cover those inputs.
- Attributes are not mutable after construction in this model. Python would let a caller reassign `node.children` or `node.value`.
