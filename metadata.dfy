/**
 * Metadata extraction from a parsed HTML document (client.go `extractMetadata`).
 *
 * The source walks the tree depth-first and updates the page at every node.
 * `Step` is that update for one node and `Scan` folds it over the walk order;
 * `ScanMeaning` states the outcome field by field: the last `<title>` wins,
 * the first non-empty author and url win, the last description wins.
 */
module Metadata {
  import opened Wrappers
  import opened Html
  import opened Records

  /** The four page fields the walk writes. */
  datatype Meta = Meta(title: string, description: string, authorName: string, authorUrl: string)

  /** Caller-supplied overrides (client.go `HTMLToPageOptions`). */
  datatype HtmlToPageOptions = HtmlToPageOptions(authorName: string, authorUrl: string)

  predicate IsTitle(n: HtmlNode) {
    IsElement(n, "title") && |n.children| > 0
  }

  predicate IsMeta(n: HtmlNode, name: string) {
    IsElement(n, "meta") && LastValue(n.attrs, "name") == name
  }

  /** The update the walk makes on visiting `n`. */
  function Step(m: Meta, n: HtmlNode): Meta {
    var m1 := if IsTitle(n) then m.(title := n.children[0].data) else m;
    if IsElement(n, "meta") then
      var name := LastValue(n.attrs, "name");
      var content := LastValue(n.attrs, "content");
      if name == "author" then (if m1.authorName == "" then m1.(authorName := content) else m1)
      else if name == "url" then (if m1.authorUrl == "" then m1.(authorUrl := content) else m1)
      else if name == "description" then m1.(description := content)
      else m1
    else m1
  }

  function Scan(m: Meta, xs: seq<HtmlNode>): Meta
    decreases xs
  {
    if xs == [] then m else Scan(Step(m, xs[0]), xs[1..])
  }

  lemma {:induction false} ScanAppend(m: Meta, a: seq<HtmlNode>, b: seq<HtmlNode>)
    ensures Scan(m, a + b) == Scan(Scan(m, a), b)
    decreases a
  {
    if a == [] {
      assert a + b == b;
    } else {
      assert (a + b)[1..] == a[1..] + b;
      ScanAppend(Step(m, a[0]), a[1..], b);
    }
  }

  lemma {:induction false} PreorderAllSnoc(cs: seq<HtmlNode>, c: HtmlNode)
    ensures PreorderAll(cs + [c]) == PreorderAll(cs) + Preorder(c)
  {
    if cs == [] {
      assert [c][1..] == [];
      assert PreorderAll([c]) == Preorder(c) + PreorderAll([]);
    } else {
      assert (cs + [c])[1..] == cs[1..] + [c];
      PreorderAllSnoc(cs[1..], c);
    }
  }

  /** The source's loop over a `<meta>` element's attributes: the last `name` and the last `content` win. */
  method ReadMetaAttrs(attrs: seq<Attr>) returns (name: string, content: string)
    ensures name == LastValue(attrs, "name") && content == LastValue(attrs, "content")
  {
    name, content := "", "";
    var i := 0;
    while i < |attrs|
      invariant 0 <= i <= |attrs|
      invariant name == LastValue(attrs[..i], "name") && content == LastValue(attrs[..i], "content")
    {
      var a := attrs[i];
      if a.key == "name" {
        name := a.val;
      }
      if a.key == "content" {
        content := a.val;
      }
      assert attrs[..i + 1] == attrs[..i] + [a];
      LastValueSnoc(attrs[..i], a, "name");
      LastValueSnoc(attrs[..i], a, "content");
      i := i + 1;
    }
    assert attrs[..i] == attrs;
  }

  /** The source's recursive walk: visit `n`, then each child's subtree in order. */
  method Walk(n: HtmlNode, m: Meta) returns (r: Meta)
    ensures r == Scan(m, Preorder(n))
    decreases n
  {
    r := m;
    if n.kind == ElementNode && n.data == "title" && |n.children| > 0 {
      r := r.(title := n.children[0].data);
    }
    if n.kind == ElementNode && n.data == "meta" {
      var name, content := ReadMetaAttrs(n.attrs);
      if name == "author" {
        if r.authorName == "" {
          r := r.(authorName := content);
        }
      } else if name == "url" {
        if r.authorUrl == "" {
          r := r.(authorUrl := content);
        }
      } else if name == "description" {
        r := r.(description := content);
      }
    }
    assert r == Step(m, n);
    var i := 0;
    while i < |n.children|
      invariant 0 <= i <= |n.children|
      invariant r == Scan(Step(m, n), PreorderAll(n.children[..i]))
    {
      var child := n.children[i];
      assert n.children[..i + 1] == n.children[..i] + [child];
      PreorderAllSnoc(n.children[..i], child);
      ScanAppend(Step(m, n), PreorderAll(n.children[..i]), Preorder(child));
      r := Walk(child, r);
      i := i + 1;
    }
    assert n.children[..i] == n.children;
    assert ([n] + PreorderAll(n.children))[1..] == PreorderAll(n.children);
  }

  /** The options' non-empty author name and url replace what the document said. */
  function Override(m: Meta, opts: Option<HtmlToPageOptions>): (r: Meta)
    ensures r.title == m.title && r.description == m.description
    ensures opts.Some? && opts.value.authorName != "" ==> r.authorName == opts.value.authorName
    ensures opts.Some? && opts.value.authorUrl != "" ==> r.authorUrl == opts.value.authorUrl
    ensures (opts.None? || opts.value.authorName == "") ==> r.authorName == m.authorName
    ensures (opts.None? || opts.value.authorUrl == "") ==> r.authorUrl == m.authorUrl
  {
    match opts
    case None => m
    case Some(o) =>
      m.(authorName := if o.authorName != "" then o.authorName else m.authorName,
         authorUrl := if o.authorUrl != "" then o.authorUrl else m.authorUrl)
  }

  function MetaOf(p: Page): Meta {
    Meta(p.title, p.description, p.authorName, p.authorUrl)
  }

  function WithMeta(p: Page, m: Meta): Page {
    p.(title := m.title, description := m.description, authorName := m.authorName, authorUrl := m.authorUrl)
  }

  /** Walks the document, then applies the overrides; fields other than the four are untouched. */
  method ExtractMetadata(doc: HtmlNode, page: Page, opts: Option<HtmlToPageOptions>) returns (r: Page)
    ensures r == WithMeta(page, Override(Scan(MetaOf(page), Preorder(doc)), opts))
  {
    var m := Walk(doc, MetaOf(page));
    if opts.Some? {
      if opts.value.authorName != "" {
        m := m.(authorName := opts.value.authorName);
      }
      if opts.value.authorUrl != "" {
        m := m.(authorUrl := opts.value.authorUrl);
      }
    }
    r := WithMeta(page, m);
  }

  // Reference definitions of what the walk finds, read off the walk order directly.

  /** The text of each `<title>` element that has a first child, in walk order. */
  function Titles(xs: seq<HtmlNode>): seq<string> {
    if xs == [] then []
    else (if IsTitle(xs[0]) then [xs[0].children[0].data] else []) + Titles(xs[1..])
  }

  /** The `content` of each `<meta>` element whose `name` is `name`, in walk order. */
  function MetaContents(xs: seq<HtmlNode>, name: string): seq<string> {
    if xs == [] then []
    else (if IsMeta(xs[0], name) then [LastValue(xs[0].attrs, "content")] else []) + MetaContents(xs[1..], name)
  }

  function Last(s: seq<string>, default: string): string {
    if s == [] then default else s[|s| - 1]
  }

  function FirstNonEmpty(s: seq<string>): string {
    if s == [] then "" else if s[0] != "" then s[0] else FirstNonEmpty(s[1..])
  }

  lemma LastAppend(a: seq<string>, b: seq<string>, d: string)
    ensures Last(a + b, d) == Last(b, Last(a, d))
  {
  }

  lemma {:induction false} FirstNonEmptyAppend(a: seq<string>, b: seq<string>)
    ensures FirstNonEmpty(a + b) == if FirstNonEmpty(a) != "" then FirstNonEmpty(a) else FirstNonEmpty(b)
  {
    if a != [] {
      assert (a + b)[1..] == a[1..] + b;
      FirstNonEmptyAppend(a[1..], b);
    } else {
      assert a + b == b;
    }
  }

  /**
   * The walk's outcome: the last title, the last description, and the first
   * non-empty author name and url unless the page already had one.
   */
  lemma {:induction false} ScanMeaning(m: Meta, xs: seq<HtmlNode>)
    ensures Scan(m, xs).title == Last(Titles(xs), m.title)
    ensures Scan(m, xs).description == Last(MetaContents(xs, "description"), m.description)
    ensures Scan(m, xs).authorName == if m.authorName != "" then m.authorName else FirstNonEmpty(MetaContents(xs, "author"))
    ensures Scan(m, xs).authorUrl == if m.authorUrl != "" then m.authorUrl else FirstNonEmpty(MetaContents(xs, "url"))
    decreases xs
  {
    if xs != [] {
      var x := xs[0];
      ScanMeaning(Step(m, x), xs[1..]);
      FirstNonEmptyAppend(if IsMeta(x, "author") then [LastValue(x.attrs, "content")] else [],
                          MetaContents(xs[1..], "author"));
      FirstNonEmptyAppend(if IsMeta(x, "url") then [LastValue(x.attrs, "content")] else [],
                          MetaContents(xs[1..], "url"));
      LastAppend(if IsTitle(x) then [x.children[0].data] else [], Titles(xs[1..]), m.title);
      LastAppend(if IsMeta(x, "description") then [LastValue(x.attrs, "content")] else [],
                 MetaContents(xs[1..], "description"), m.description);
    }
  }

  /** An author name or url already set is never replaced by the document. */
  lemma ScanKeepsAuthor(m: Meta, xs: seq<HtmlNode>)
    requires m.authorName != ""
    ensures Scan(m, xs).authorName == m.authorName
  {
    ScanMeaning(m, xs);
  }

  /** A head with a title and an author meta, as a whole document. */
  lemma HeadExample(t: string, a: string)
    requires a != ""
    ensures var doc := HtmlNode(DocumentNode, "", [], [
              HtmlNode(ElementNode, "title", [], [HtmlNode(TextNode, t, [], [])]),
              HtmlNode(ElementNode, "meta", [Attr("name", "author"), Attr("content", a)], [])]);
            Scan(Meta("", "", "", ""), Preorder(doc)) == Meta(t, "", a, "")
  {
    var tt := HtmlNode(TextNode, t, [], []);
    var title := HtmlNode(ElementNode, "title", [], [tt]);
    var attrs := [Attr("name", "author"), Attr("content", a)];
    var meta := HtmlNode(ElementNode, "meta", attrs, []);
    var doc := HtmlNode(DocumentNode, "", [], [title, meta]);
    LastValueMeaning(attrs, "name", 0);
    LastValueMeaning(attrs, "content", 1);
    assert PreorderAll([]) == [];
    assert Preorder(tt) == [tt];
    assert PreorderAll([tt]) == [tt];
    assert Preorder(title) == [title, tt];
    assert Preorder(meta) == [meta];
    assert [title, meta][1..] == [meta];
    assert PreorderAll([meta]) == [meta];
    assert PreorderAll([title, meta]) == [title, tt, meta];
    assert Preorder(doc) == [doc, title, tt, meta];
    var m0 := Meta("", "", "", "");
    assert Step(m0, doc) == m0;
    assert Step(m0, title) == Meta(t, "", "", "");
    assert Step(Meta(t, "", "", ""), tt) == Meta(t, "", "", "");
    assert Step(Meta(t, "", "", ""), meta) == Meta(t, "", a, "");
    assert Scan(m0, [doc, title, tt, meta]) == Scan(Step(m0, doc), [title, tt, meta]);
    assert Scan(m0, [title, tt, meta]) == Scan(Step(m0, title), [tt, meta]);
    assert Scan(Meta(t, "", "", ""), [tt, meta]) == Scan(Meta(t, "", "", ""), [meta]);
    assert Scan(Meta(t, "", "", ""), [meta]) == Scan(Meta(t, "", a, ""), []);
  }
}
