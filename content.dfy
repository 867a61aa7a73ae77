/**
 * Telegraph content nodes (types.go `Node`) and the fluent `ContentBuilder`.
 *
 * A node is either a text leaf or an element with a tag, an attribute map and
 * an ordered list of children.  The Go struct can hold a tag and a text at
 * once; the Telegraph format (and the converter's own comments) only ever use
 * the two separate shapes, which is what the sum type below admits.
 */
module Content {

  datatype Node =
    | Text(content: string)
    | Element(tag: string, attrs: map<string, string>, children: seq<Node>)

  /** The 24 tags the Telegraph API accepts. */
  const SupportedTags: set<string> := {
    "a", "aside", "b", "blockquote", "br", "code", "em", "figcaption", "figure", "h3", "h4", "hr",
    "i", "iframe", "img", "li", "ol", "p", "pre", "s", "strong", "u", "ul", "video"
  }

  /** The only attributes the Telegraph API keeps on an element. */
  const AllowedAttrs: set<string> := {"href", "src"}

  /** A tree the Telegraph API accepts: supported tags and allowed attributes only, at every depth. */
  predicate Conforms(n: Node) {
    match n
    case Text(_) => true
    case Element(tag, attrs, children) =>
      && tag in SupportedTags
      && attrs.Keys <= AllowedAttrs
      && forall i :: 0 <= i < |children| ==> Conforms(children[i])
  }

  /** `t` occurs in `s` at position `k`. */
  ghost predicate InfixAt(t: string, s: string, k: int) {
    0 <= k <= |s| - |t| && s[k..k + |t|] == t
  }

  /** `t` occurs somewhere inside `s`. */
  ghost predicate IsInfix(t: string, s: string) {
    exists k :: InfixAt(t, s, k)
  }

  lemma InfixOfConcat(a: string, b: string)
    ensures IsInfix(a, a + b)
    ensures forall t {:trigger IsInfix(t, b)} :: IsInfix(t, b) ==> IsInfix(t, a + b)
  {
    assert InfixAt(a, a + b, 0);
    forall t | IsInfix(t, b) ensures IsInfix(t, a + b) {
      var k :| InfixAt(t, b, k);
      assert (a + b)[|a| + k..|a| + k + |t|] == b[k..k + |t|];
      assert InfixAt(t, a + b, |a| + k);
    }
  }

  /** The text of a node: its content for a leaf, its children's text joined for an element. */
  function NodeToString(n: Node): (s: string)
    ensures n.Element? ==> forall i :: 0 <= i < |n.children| ==> IsInfix(NodeToString(n.children[i]), s)
  {
    match n
    case Text(content) => content
    case Element(_, _, children) => NodesToString(children)
  }

  /** The text of a list of nodes: each node's text appears in it. */
  function NodesToString(ns: seq<Node>): (s: string)
    ensures forall i :: 0 <= i < |ns| ==> IsInfix(NodeToString(ns[i]), s)
  {
    if ns == [] then ""
    else
      var head := NodeToString(ns[0]);
      var rest := NodesToString(ns[1..]);
      InfixOfConcat(head, rest);
      assert forall i :: 1 <= i < |ns| ==> ns[i] == ns[1..][i - 1];
      head + rest
  }

  /** Text extraction distributes over concatenation of node lists. */
  lemma {:induction false} NodesToStringAppend(a: seq<Node>, b: seq<Node>)
    ensures NodesToString(a + b) == NodesToString(a) + NodesToString(b)
  {
    if a == [] {
      assert a + b == b;
    } else {
      assert (a + b)[1..] == a[1..] + b;
      NodesToStringAppend(a[1..], b);
    }
  }

  /** An element with a single child has exactly that child's text. */
  lemma SingleChildText(tag: string, attrs: map<string, string>, child: Node)
    ensures NodeToString(Element(tag, attrs, [child])) == NodeToString(child)
  {
    assert [child][1..] == [];
    assert NodesToString([child]) == NodeToString(child) + "";
    assert NodeToString(child) + "" == NodeToString(child);
  }

  /** The text of one node, gathered child by child as the source's builder loop does. */
  method NodeText(n: Node) returns (s: string)
    ensures s == NodeToString(n)
    decreases n
  {
    if n.Text? {
      return n.content;
    }
    s := "";
    var i := 0;
    while i < |n.children|
      invariant 0 <= i <= |n.children|
      invariant s == NodesToString(n.children[..i])
    {
      var child := n.children[i];
      NodesToStringAppend(n.children[..i], [child]);
      assert n.children[..i + 1] == n.children[..i] + [child];
      assert NodesToString([child]) == NodeToString(child) + NodesToString([]);
      var text := NodeText(child);
      s := s + text;
      i := i + 1;
    }
    assert n.children[..i] == n.children;
  }

  /** An append-only list of top-level nodes. */
  class ContentBuilder {
    var nodes: seq<Node>

    ghost predicate Valid()
      reads this
    {
      forall i :: 0 <= i < |nodes| ==> Conforms(nodes[i])
    }

    constructor ()
      ensures Valid() && nodes == []
    {
      nodes := [];
    }

    /** Appends `n` and records what that does to the builder's text. */
    method Append(n: Node)
      requires Valid() && Conforms(n)
      modifies this
      ensures Valid()
      ensures nodes == old(nodes) + [n]
      ensures NodesToString(nodes) == old(NodesToString(nodes)) + NodeToString(n)
    {
      NodesToStringAppend(nodes, [n]);
      nodes := nodes + [n];
    }

    method AddParagraph(text: string) returns (self: ContentBuilder)
      requires Valid()
      modifies this
      ensures Valid() && self == this
      ensures nodes == old(nodes) + [Element("p", map[], [Text(text)])]
      ensures NodesToString(nodes) == old(NodesToString(nodes)) + text
    {
      SingleChildText("p", map[], Text(text));
      Append(Element("p", map[], [Text(text)]));
      self := this;
    }

    /** Level 4 gives an h4; every other level gives an h3. */
    method AddHeading(text: string, level: int) returns (self: ContentBuilder)
      requires Valid()
      modifies this
      ensures Valid() && self == this
      ensures nodes == old(nodes) + [Element(if level == 4 then "h4" else "h3", map[], [Text(text)])]
      ensures NodesToString(nodes) == old(NodesToString(nodes)) + text
    {
      var tag := "h3";
      if level == 4 {
        tag := "h4";
      }
      SingleChildText(tag, map[], Text(text));
      Append(Element(tag, map[], [Text(text)]));
      self := this;
    }

    /** A link is a paragraph holding one anchor whose only attribute is its href. */
    method AddLink(text: string, url: string) returns (self: ContentBuilder)
      requires Valid()
      modifies this
      ensures Valid() && self == this
      ensures nodes == old(nodes) + [Element("p", map[], [Element("a", map["href" := url], [Text(text)])])]
      ensures NodesToString(nodes) == old(NodesToString(nodes)) + text
    {
      SingleChildText("a", map["href" := url], Text(text));
      SingleChildText("p", map[], Element("a", map["href" := url], [Text(text)]));
      Append(Element("p", map[], [Element("a", map["href" := url], [Text(text)])]));
      self := this;
    }

    /** An image carries its source and no children, so it adds no text. */
    method AddImage(src: string) returns (self: ContentBuilder)
      requires Valid()
      modifies this
      ensures Valid() && self == this
      ensures nodes == old(nodes) + [Element("img", map["src" := src], [])]
      ensures NodesToString(nodes) == old(NodesToString(nodes))
    {
      Append(Element("img", map["src" := src], []));
      self := this;
    }

    method AddBlockquote(text: string) returns (self: ContentBuilder)
      requires Valid()
      modifies this
      ensures Valid() && self == this
      ensures nodes == old(nodes) + [Element("blockquote", map[], [Text(text)])]
      ensures NodesToString(nodes) == old(NodesToString(nodes)) + text
    {
      SingleChildText("blockquote", map[], Text(text));
      Append(Element("blockquote", map[], [Text(text)]));
      self := this;
    }

    method AddCodeBlock(code: string) returns (self: ContentBuilder)
      requires Valid()
      modifies this
      ensures Valid() && self == this
      ensures nodes == old(nodes) + [Element("pre", map[], [Text(code)])]
      ensures NodesToString(nodes) == old(NodesToString(nodes)) + code
    {
      SingleChildText("pre", map[], Text(code));
      Append(Element("pre", map[], [Text(code)]));
      self := this;
    }

    method AddLineBreak() returns (self: ContentBuilder)
      requires Valid()
      modifies this
      ensures Valid() && self == this
      ensures nodes == old(nodes) + [Element("br", map[], [])]
      ensures NodesToString(nodes) == old(NodesToString(nodes))
    {
      Append(Element("br", map[], []));
      self := this;
    }

    /** The nodes added so far, in the order they were added. */
    method Build() returns (r: seq<Node>)
      requires Valid()
      ensures r == nodes
      ensures forall i :: 0 <= i < |r| ==> Conforms(r[i])
    {
      r := nodes;
    }

    /** The text of every node, in insertion order. */
    method String() returns (s: string)
      ensures s == NodesToString(nodes)
    {
      s := "";
      var i := 0;
      while i < |nodes|
        invariant 0 <= i <= |nodes|
        invariant s == NodesToString(nodes[..i])
      {
        NodesToStringAppend(nodes[..i], [nodes[i]]);
        assert nodes[..i + 1] == nodes[..i] + [nodes[i]];
        var text := NodeText(nodes[i]);
        s := s + text;
        i := i + 1;
      }
      assert nodes[..i] == nodes;
    }
  }

  /** The builder sequence of the string-representation test yields "HelloWorld". */
  method StringOfTwoParagraphs() returns (s: string)
    ensures s == "HelloWorld"
  {
    var b := new ContentBuilder();
    var _ := b.AddParagraph("Hello");
    var _ := b.AddParagraph("World");
    s := b.String();
  }
}
