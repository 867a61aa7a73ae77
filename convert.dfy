/**
 * Conversion of a parsed HTML subtree into Telegraph content nodes
 * (client.go `htmlNodeToTelegraphNodes` and `mapTag`).
 *
 * `ConvertChildren` is the specification: text children with non-empty text
 * are kept verbatim, `script` and `style` elements and every non-element,
 * non-text child are dropped, and every other element becomes an element with
 * a supported tag, only its `href`/`src` attributes and its converted children.
 * The methods are the loops of the source, proved equal to it.
 */
module Convert {
  import opened Html
  import opened Content

  /** Maps any HTML tag name to the closest tag the Telegraph API accepts. */
  function MapTag(tag: string): (r: string)
    ensures r in SupportedTags && r != "b" && r != "i"
    ensures r == "h3" <==> tag == "h1" || tag == "h2" || tag == "h3"
    ensures r == "strong" <==> tag == "b" || tag == "strong"
    ensures r == "em" <==> tag == "i" || tag == "em"
    ensures r == "p" <==> tag == "p" || (tag !in SupportedTags && tag != "h1" && tag != "h2")
    ensures tag in SupportedTags && tag != "b" && tag != "i" ==> r == tag
  {
    if tag == "h1" || tag == "h2" then "h3"
    else if tag == "b" then "strong"
    else if tag == "i" then "em"
    else if tag == "ul" || tag == "ol" || tag == "li" then tag
    else if tag == "div" || tag == "span" then "p"
    else if tag in SupportedTags then tag
    else "p"
  }

  /** Mapping a tag that was already mapped changes nothing. */
  lemma MapTagIdempotent(tag: string)
    ensures MapTag(MapTag(tag)) == MapTag(tag)
  {
  }

  /** The attribute map of a converted element: each allowed key that occurs, with its last value. */
  function KeptAttrs(attrs: seq<Attr>): map<string, string> {
    map k | k in AllowedAttrs && HasKey(attrs, k) :: LastValue(attrs, k)
  }

  /** The source's attribute loop: later `href`/`src` attributes overwrite earlier ones; others are ignored. */
  method FilterAttrs(attrs: seq<Attr>) returns (m: map<string, string>)
    ensures m == KeptAttrs(attrs)
    ensures m.Keys <= AllowedAttrs
  {
    m := map[];
    var i := 0;
    while i < |attrs|
      invariant 0 <= i <= |attrs|
      invariant m == KeptAttrs(attrs[..i])
    {
      var a := attrs[i];
      if a.key == "href" || a.key == "src" {
        m := m[a.key := a.val];
      }
      assert attrs[..i + 1] == attrs[..i] + [attrs[i]];
      KeptAttrsSnoc(attrs[..i], attrs[i]);
      i := i + 1;
    }
    assert attrs[..i] == attrs;
  }

  /** One more attribute: an allowed key now maps to its value, anything else leaves the map alone. */
  lemma KeptAttrsSnoc(attrs: seq<Attr>, a: Attr)
    ensures KeptAttrs(attrs + [a]) == if a.key in AllowedAttrs then KeptAttrs(attrs)[a.key := a.val] else KeptAttrs(attrs)
  {
    forall k | k in AllowedAttrs
      ensures HasKey(attrs + [a], k) <==> HasKey(attrs, k) || a.key == k
      ensures LastValue(attrs + [a], k) == if a.key == k then a.val else LastValue(attrs, k)
    {
      HasKeySnoc(attrs, a, k);
      LastValueSnoc(attrs, a, k);
    }
  }

  /** The nodes one child contributes to its parent's converted list. */
  function ConvertOne(c: HtmlNode): seq<Node> {
    if c.kind == TextNode then (if c.data != "" then [Text(c.data)] else [])
    else if c.kind != ElementNode then []
    else if c.data == "script" || c.data == "style" then []
    else [Element(MapTag(c.data), KeptAttrs(c.attrs), ConvertChildren(c.children))]
  }

  function ConvertChildren(cs: seq<HtmlNode>): seq<Node> {
    if cs == [] then [] else ConvertOne(cs[0]) + ConvertChildren(cs[1..])
  }

  /** Converting a list is converting its parts and concatenating. */
  lemma {:induction false} ConvertChildrenAppend(a: seq<HtmlNode>, b: seq<HtmlNode>)
    ensures ConvertChildren(a + b) == ConvertChildren(a) + ConvertChildren(b)
  {
    if a == [] {
      assert a + b == b;
    } else {
      assert (a + b)[1..] == a[1..] + b;
      ConvertChildrenAppend(a[1..], b);
    }
  }

  /** The source's loop over the children of `n`, converting subtrees recursively. */
  method HtmlNodeToTelegraphNodes(n: HtmlNode) returns (nodes: seq<Node>)
    ensures nodes == ConvertChildren(n.children)
    decreases n
  {
    nodes := [];
    var i := 0;
    while i < |n.children|
      invariant 0 <= i <= |n.children|
      invariant nodes == ConvertChildren(n.children[..i])
    {
      var child := n.children[i];
      assert n.children[..i + 1] == n.children[..i] + [child];
      ConvertChildrenAppend(n.children[..i], [child]);
      assert ConvertChildren([child]) == ConvertOne(child) + ConvertChildren([]);
      if child.kind == TextNode {
        if child.data != "" {
          nodes := nodes + [Text(child.data)];
        }
      } else if child.kind == ElementNode && child.data != "script" && child.data != "style" {
        var tag := MapTag(child.data);
        var attrs := FilterAttrs(child.attrs);
        var children := HtmlNodeToTelegraphNodes(child);
        nodes := nodes + [Element(tag, attrs, children)];
      }
      i := i + 1;
    }
    assert n.children[..i] == n.children;
  }

  /** No text leaf of the tree is empty. */
  predicate NoEmptyText(n: Node) {
    match n
    case Text(content) => content != ""
    case Element(_, _, children) => forall i :: 0 <= i < |children| ==> NoEmptyText(children[i])
  }

  /** Everything the converter emits is accepted by the Telegraph API and carries no empty text. */
  lemma {:induction false} ConvertOneConforms(c: HtmlNode)
    ensures forall i :: 0 <= i < |ConvertOne(c)| ==> Conforms(ConvertOne(c)[i]) && NoEmptyText(ConvertOne(c)[i])
    decreases c, 1
  {
    if c.kind == ElementNode && c.data != "script" && c.data != "style" {
      ConvertChildrenConform(c.children);
    }
  }

  lemma {:induction false} ConvertChildrenConform(cs: seq<HtmlNode>)
    ensures forall i :: 0 <= i < |ConvertChildren(cs)| ==> Conforms(ConvertChildren(cs)[i]) && NoEmptyText(ConvertChildren(cs)[i])
    decreases cs, 0
  {
    if cs != [] {
      ConvertOneConforms(cs[0]);
      ConvertChildrenConform(cs[1..]);
    }
  }

  /** Each HTML child yields at most one node. */
  lemma {:induction false} ConvertChildrenLength(cs: seq<HtmlNode>)
    ensures |ConvertChildren(cs)| <= |cs|
  {
    if cs != [] {
      ConvertChildrenLength(cs[1..]);
    }
  }

  /** The text a reader sees: text nodes, and the text inside every element except `script` and `style`. */
  function VisibleText(n: HtmlNode): string {
    if n.kind == TextNode then n.data
    else if n.kind != ElementNode || n.data == "script" || n.data == "style" then ""
    else VisibleTextAll(n.children)
  }

  function VisibleTextAll(cs: seq<HtmlNode>): string {
    if cs == [] then "" else VisibleText(cs[0]) + VisibleTextAll(cs[1..])
  }

  /** Conversion loses no visible text and adds none. */
  lemma {:induction false} ConvertOneText(c: HtmlNode)
    ensures NodesToString(ConvertOne(c)) == VisibleText(c)
    decreases c, 1
  {
    if c.kind == TextNode {
      if c.data != "" {
        assert NodesToString([Text(c.data)]) == c.data + NodesToString([]);
      }
    } else if c.kind == ElementNode && c.data != "script" && c.data != "style" {
      var e := Element(MapTag(c.data), KeptAttrs(c.attrs), ConvertChildren(c.children));
      assert NodesToString([e]) == NodeToString(e) + NodesToString([]);
      ConvertChildrenText(c.children);
    }
  }

  lemma {:induction false} ConvertChildrenText(cs: seq<HtmlNode>)
    ensures NodesToString(ConvertChildren(cs)) == VisibleTextAll(cs)
    decreases cs, 0
  {
    if cs != [] {
      ConvertOneText(cs[0]);
      ConvertChildrenText(cs[1..]);
      NodesToStringAppend(ConvertOne(cs[0]), ConvertChildren(cs[1..]));
    }
  }

  /** A `script` or `style` child, wherever it sits in the list, contributes nothing. */
  lemma DroppedChild(a: seq<HtmlNode>, c: HtmlNode, b: seq<HtmlNode>)
    requires c.kind == ElementNode && (c.data == "script" || c.data == "style")
    ensures ConvertChildren(a + [c] + b) == ConvertChildren(a + b)
  {
    ConvertChildrenAppend(a + [c], b);
    ConvertChildrenAppend(a, [c]);
    ConvertChildrenAppend(a, b);
    assert ConvertChildren([c]) == ConvertOne(c) + ConvertChildren([]);
  }

  /** `<p>Hello</p>` becomes a `p` element holding the text; `<h1>` becomes `h3`; `<div>` becomes `p`. */
  lemma ElementExamples(text: string, tag: string)
    requires text != ""
    requires tag == "p" || tag == "h1" || tag == "div"
    ensures ConvertChildren([HtmlNode(ElementNode, tag, [], [HtmlNode(TextNode, text, [], [])])])
         == [Element(if tag == "h1" then "h3" else "p", map[], [Text(text)])]
  {
    var t := HtmlNode(TextNode, text, [], []);
    assert ConvertChildren([t]) == [Text(text)] + ConvertChildren([]);
    assert ConvertChildren([t]) == [Text(text)];
    var e := HtmlNode(ElementNode, tag, [], [t]);
    assert KeptAttrs([]) == map[];
    assert MapTag(tag) == if tag == "h1" then "h3" else "p";
    assert ConvertOne(e) == [Element(MapTag(tag), KeptAttrs([]), ConvertChildren([t]))];
    assert ConvertChildren([e]) == ConvertOne(e) + ConvertChildren([]);
    assert ConvertChildren([e]) == [Element(MapTag(tag), map[], [Text(text)])];
  }

  /** A link keeps its `href` and loses its `class`; a `script` element vanishes. */
  lemma AttributeExamples(href: string, cls: string, code: string)
    ensures ConvertChildren([HtmlNode(ElementNode, "a", [Attr("class", cls), Attr("href", href)], [])])
         == [Element("a", map["href" := href], [])]
    ensures ConvertChildren([HtmlNode(ElementNode, "script", [], [HtmlNode(TextNode, code, [], [])])]) == []
  {
    var attrs := [Attr("class", cls), Attr("href", href)];
    assert HasKey(attrs, "href") by { assert attrs[1].key == "href"; }
    assert !HasKey(attrs, "src");
    LastValueMeaning(attrs, "href", 1);
    assert KeptAttrs(attrs) == map["href" := href];
    var e := HtmlNode(ElementNode, "a", attrs, []);
    assert ConvertChildren([e]) == ConvertOne(e) + ConvertChildren([]);
    var s := HtmlNode(ElementNode, "script", [], [HtmlNode(TextNode, code, [], [])]);
    assert ConvertChildren([s]) == ConvertOne(s) + ConvertChildren([]);
  }
}
