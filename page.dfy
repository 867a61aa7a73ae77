/**
 * Locating the `<body>` element and converting a whole HTML document into a
 * page (client.go `parseHTMLBody` and `ConvertHTMLToPage`).
 *
 * The source's walk records every `<body>` element it reaches and does not
 * descend into one, so the element it ends with is the last body in walk
 * order that is not nested inside another body.  `BodyIn` is that outcome.
 */
module HtmlPage {
  import opened Wrappers
  import opened Html
  import opened Content
  import opened Records
  import Convert
  import Metadata

  const NoBodyMessage := "HTML document has no body tag"
  const ParseFailedPrefix := "failed to parse HTML: "
  const BodyFailedPrefix := "failed to parse HTML body: "

  predicate IsBody(n: HtmlNode) {
    IsElement(n, "body")
  }

  /** The body the walk from `n` ends with, if it finds any. */
  function BodyIn(n: HtmlNode): Option<HtmlNode> {
    if IsBody(n) then Some(n) else BodyInAll(n.children)
  }

  /** Over a list of siblings a later find overwrites an earlier one. */
  function BodyInAll(cs: seq<HtmlNode>): Option<HtmlNode> {
    if cs == [] then None
    else
      var later := BodyInAll(cs[1..]);
      if later.Some? then later else BodyIn(cs[0])
  }

  lemma {:induction false} BodyInAllSnoc(cs: seq<HtmlNode>, c: HtmlNode)
    ensures BodyInAll(cs + [c]) == if BodyIn(c).Some? then BodyIn(c) else BodyInAll(cs)
  {
    if cs == [] {
      assert [c][1..] == [];
    } else {
      assert (cs + [c])[1..] == cs[1..] + [c];
      BodyInAllSnoc(cs[1..], c);
    }
  }

  /** The source's recursive walk; `found` is the body recorded before reaching `n`. */
  method FindBody(n: HtmlNode, found: Option<HtmlNode>) returns (r: Option<HtmlNode>)
    ensures r == if BodyIn(n).Some? then BodyIn(n) else found
    decreases n
  {
    if n.kind == ElementNode && n.data == "body" {
      return Some(n);
    }
    r := found;
    var i := 0;
    while i < |n.children|
      invariant 0 <= i <= |n.children|
      invariant r == if BodyInAll(n.children[..i]).Some? then BodyInAll(n.children[..i]) else found
    {
      var child := n.children[i];
      assert n.children[..i + 1] == n.children[..i] + [child];
      BodyInAllSnoc(n.children[..i], child);
      r := FindBody(child, r);
      i := i + 1;
    }
    assert n.children[..i] == n.children;
  }

  /** Whatever the walk finds is a `<body>` element of the document. */
  lemma {:induction false} BodyInSound(n: HtmlNode)
    ensures BodyIn(n).Some? ==> IsBody(BodyIn(n).value) && BodyIn(n).value in Preorder(n)
    decreases n, 1
  {
    if !IsBody(n) {
      BodyInAllSound(n.children);
    }
  }

  lemma {:induction false} BodyInAllSound(cs: seq<HtmlNode>)
    ensures BodyInAll(cs).Some? ==> IsBody(BodyInAll(cs).value) && BodyInAll(cs).value in PreorderAll(cs)
    decreases cs, 0
  {
    if cs != [] {
      BodyInAllSound(cs[1..]);
      BodyInSound(cs[0]);
    }
  }

  /** The walk comes back empty-handed exactly when no node of the document is a `<body>` element. */
  lemma {:induction false} BodyInComplete(n: HtmlNode)
    ensures BodyIn(n).None? <==> forall x :: x in Preorder(n) ==> !IsBody(x)
    decreases n, 1
  {
    BodyInSound(n);
    if !IsBody(n) {
      BodyInAllComplete(n.children);
    }
  }

  lemma {:induction false} BodyInAllComplete(cs: seq<HtmlNode>)
    ensures BodyInAll(cs).None? <==> forall x :: x in PreorderAll(cs) ==> !IsBody(x)
    decreases cs, 0
  {
    BodyInAllSound(cs);
    if cs != [] {
      BodyInAllComplete(cs[1..]);
      BodyInComplete(cs[0]);
    }
  }

  /** The body's children converted to content nodes, or the error when the document has no body. */
  method ParseHtmlBody(doc: HtmlNode) returns (r: Result<seq<Node>, string>)
    ensures r.Err? <==> forall x :: x in Preorder(doc) ==> !IsBody(x)
    ensures r.Err? ==> r.error == NoBodyMessage
    ensures r.Ok? ==> BodyIn(doc).Some? && r.value == Convert.ConvertChildren(BodyIn(doc).value.children)
  {
    var body := FindBody(doc, None);
    BodyInComplete(doc);
    if body.None? {
      return Err(NoBodyMessage);
    }
    var nodes := Convert.HtmlNodeToTelegraphNodes(body.value);
    r := Ok(nodes);
  }

  /**
   * The whole conversion.  The HTML parser is not modelled: its outcome is the
   * `parsed` argument.  The page starts empty, receives the metadata, then the
   * converted body.
   */
  method ConvertHtmlToPage(parsed: Result<HtmlNode, string>, opts: Option<Metadata.HtmlToPageOptions>)
    returns (r: Result<Page, string>)
    ensures parsed.Err? ==> r == Err(ParseFailedPrefix + parsed.error)
    ensures parsed.Ok? && BodyIn(parsed.value).None? ==> r == Err(BodyFailedPrefix + NoBodyMessage)
    ensures parsed.Ok? && BodyIn(parsed.value).Some? ==>
      var meta := Metadata.Override(Metadata.Scan(Metadata.Meta("", "", "", ""), Preorder(parsed.value)), opts);
      r == Ok(Metadata.WithMeta(EmptyPage, meta).(content := Convert.ConvertChildren(BodyIn(parsed.value).value.children)))
  {
    if parsed.Err? {
      return Err(ParseFailedPrefix + parsed.error);
    }
    var doc := parsed.value;
    var page := Metadata.ExtractMetadata(doc, EmptyPage, opts);
    var body := ParseHtmlBody(doc);
    BodyInComplete(doc);
    if body.Err? {
      return Err(BodyFailedPrefix + body.error);
    }
    r := Ok(page.(content := body.value));
  }

  /** A converted page's content is accepted by the Telegraph API. */
  lemma ConvertedPageConforms(doc: HtmlNode)
    requires BodyIn(doc).Some?
    ensures forall i :: 0 <= i < |Convert.ConvertChildren(BodyIn(doc).value.children)| ==>
      Conforms(Convert.ConvertChildren(BodyIn(doc).value.children)[i])
  {
    Convert.ConvertChildrenConform(BodyIn(doc).value.children);
  }

  /** A document with no `<body>` anywhere is rejected, however much else it holds. */
  lemma NoBodyRejected(doc: HtmlNode)
    requires forall x :: x in Preorder(doc) ==> !IsBody(x)
    ensures BodyIn(doc).None?
  {
    BodyInComplete(doc);
  }

  /** Of two sibling bodies the later one is used. */
  lemma LaterSiblingBodyWins(b1: HtmlNode, b2: HtmlNode)
    requires IsBody(b1) && IsBody(b2)
    ensures BodyIn(HtmlNode(DocumentNode, "", [], [b1, b2])) == Some(b2)
  {
    assert [b1, b2][1..] == [b2];
    assert BodyInAll([b2]) == Some(b2);
  }
}
