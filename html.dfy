/**
 * The parsed HTML tree the converter walks: a node with a type, its data (the
 * tag name of an element, the text of a text node), its attributes in
 * document order and its children in document order.  The parser that builds
 * the tree is not part of this model; its output is the input here.
 */
module Html {
  import opened Wrappers

  datatype NodeType = ErrorNode | TextNode | DocumentNode | ElementNode | CommentNode | DoctypeNode | RawNode

  datatype Attr = Attr(key: string, val: string)

  datatype HtmlNode = HtmlNode(kind: NodeType, data: string, attrs: seq<Attr>, children: seq<HtmlNode>)

  predicate IsElement(n: HtmlNode, tag: string) {
    n.kind == ElementNode && n.data == tag
  }

  /** Every node of the tree in the order a depth-first walk visits it: the node, then each child's subtree. */
  function Preorder(n: HtmlNode): seq<HtmlNode> {
    [n] + PreorderAll(n.children)
  }

  function PreorderAll(cs: seq<HtmlNode>): seq<HtmlNode> {
    if cs == [] then [] else Preorder(cs[0]) + PreorderAll(cs[1..])
  }

  predicate HasKey(attrs: seq<Attr>, k: string) {
    exists i :: 0 <= i < |attrs| && attrs[i].key == k
  }

  /**
   * The value a loop that assigns every attribute named `k` in turn ends with:
   * the value of the last attribute with that key, or "" when there is none.
   */
  function LastValue(attrs: seq<Attr>, k: string): string {
    if attrs == [] then ""
    else if attrs[|attrs| - 1].key == k then attrs[|attrs| - 1].val
    else LastValue(attrs[..|attrs| - 1], k)
  }

  /** `LastValue` is the value at the last position holding the key, and "" without one. */
  lemma {:induction false} LastValueMeaning(attrs: seq<Attr>, k: string, i: int)
    requires 0 <= i < |attrs| && attrs[i].key == k
    requires forall j :: i < j < |attrs| ==> attrs[j].key != k
    ensures LastValue(attrs, k) == attrs[i].val
  {
    if i < |attrs| - 1 {
      LastValueMeaning(attrs[..|attrs| - 1], k, i);
    }
  }

  lemma {:induction false} LastValueAbsent(attrs: seq<Attr>, k: string)
    requires !HasKey(attrs, k)
    ensures LastValue(attrs, k) == ""
  {
    if attrs != [] {
      assert attrs[|attrs| - 1].key != k;
      var init := attrs[..|attrs| - 1];
      assert !HasKey(init, k) by {
        forall i | 0 <= i < |init| ensures init[i].key != k {
          assert init[i] == attrs[i];
        }
      }
      LastValueAbsent(init, k);
    }
  }

  /** Appending one attribute: it wins for its own key and leaves every other key alone. */
  lemma LastValueSnoc(attrs: seq<Attr>, a: Attr, k: string)
    ensures LastValue(attrs + [a], k) == if a.key == k then a.val else LastValue(attrs, k)
  {
    assert (attrs + [a])[..|attrs|] == attrs;
  }

  lemma HasKeySnoc(attrs: seq<Attr>, a: Attr, k: string)
    ensures HasKey(attrs + [a], k) <==> HasKey(attrs, k) || a.key == k
  {
    if HasKey(attrs, k) {
      var i :| 0 <= i < |attrs| && attrs[i].key == k;
      assert (attrs + [a])[i] == attrs[i];
    }
    if a.key == k {
      assert (attrs + [a])[|attrs|] == a;
    }
    if HasKey(attrs + [a], k) && a.key != k {
      var i :| 0 <= i < |attrs + [a]| && (attrs + [a])[i].key == k;
      assert i < |attrs| && attrs[i] == (attrs + [a])[i];
    }
  }

  /** Each node of a subtree's walk lies in the walk of the whole list. */
  lemma {:induction false} PreorderAllMember(cs: seq<HtmlNode>, i: int)
    requires 0 <= i < |cs|
    ensures forall x :: x in Preorder(cs[i]) ==> x in PreorderAll(cs)
  {
    if i > 0 {
      PreorderAllMember(cs[1..], i - 1);
    }
  }
}
