/**
 The DOM adapter shared by both harnesses (`_element_to_node` / `element_to_node`
 and `_count_nodes`): a parser's element tree becomes a labelled ordered tree of
 zss `Node`s, and elements are counted the same way.
 */
module Dom {
  import opened Wrappers

  /** A tag as lxml reports it; lxml refuses an empty tag name. */
  type TagName = s: string | |s| > 0 witness "html"

  /**
   A node of a parser's output, children in document order. `tag` is `None` for an
   object without a `tag` attribute; `classAttr` is the `class` attribute string
   as BeautifulSoup exposes it to CSS selectors.
   */
  datatype Element = Element(tag: Option<TagName>, classAttr: Option<string>, children: seq<Element>)

  /** A zss `Node`: a label and its ordered kids. */
  datatype Tree = Node(name: TagName, kids: seq<Tree>)

  function TreeSize(t: Tree): nat {
    1 + ForestSize(t.kids)
  }

  /** The number of nodes of a forest; the rightmost tree is peeled off first. */
  function ForestSize(f: seq<Tree>): nat {
    if |f| == 0 then 0 else ForestSize(f[..|f| - 1]) + TreeSize(f[|f| - 1])
  }

  lemma {:induction false} ForestSizeAppend(a: seq<Tree>, b: seq<Tree>)
    ensures ForestSize(a + b) == ForestSize(a) + ForestSize(b)
    decreases |b|
  {
    if |b| > 0 {
      assert (a + b)[..|a + b| - 1] == a + b[..|b| - 1];
      ForestSizeAppend(a, b[..|b| - 1]);
    } else {
      assert a + b == a;
    }
  }

  /** `_element_to_node` on a present element. */
  function Convert(e: Element): Option<Tree> {
    if e.tag.None? then None else Some(Node(e.tag.value, ConvertAll(e.children)))
  }

  /** The loop over an element's children: each child that converts is added as a kid. */
  function ConvertAll(cs: seq<Element>): seq<Tree> {
    if |cs| == 0 then []
    else
      var kid := Convert(cs[|cs| - 1]);
      ConvertAll(cs[..|cs| - 1]) + (if kid.Some? then [kid.value] else [])
  }

  /** `_element_to_node(el)` (spider) and `element_to_node(element)` (DrissionPage). */
  function ElementToNode(el: Option<Element>): (r: Option<Tree>)
    ensures r.None? <==> el.None? || el.value.tag.None?
    ensures r.Some? ==> r.value.name == el.value.tag.value
  {
    if el.None? then None else Convert(el.value)
  }

  /** `_count_nodes` on a present element. */
  function Count(e: Element): nat {
    if e.tag.None? then 0 else 1 + CountAll(e.children)
  }

  /** The node counts of a list of children, added up. */
  function CountAll(cs: seq<Element>): nat {
    if |cs| == 0 then 0 else CountAll(cs[..|cs| - 1]) + Count(cs[|cs| - 1])
  }

  /** `_count_nodes`: 0 for a missing or tagless element, else the element and its tagged descendants. */
  function CountNodes(el: Option<Element>): (n: nat)
    ensures el.None? || el.value.tag.None? ==> n == 0
    ensures el.Some? && el.value.tag.Some? ==> n >= 1
  {
    if el.None? then 0 else Count(el.value)
  }

  /** The children that carry a tag, in document order. */
  function Tagged(cs: seq<Element>): (r: seq<Element>)
    ensures forall j :: 0 <= j < |r| ==> r[j].tag.Some?
  {
    if |cs| == 0 then []
    else Tagged(cs[..|cs| - 1]) + (if cs[|cs| - 1].tag.Some? then [cs[|cs| - 1]] else [])
  }

  /**
   Converting a child list is the same as keeping its tagged children, in order,
   and converting each of them.
   */
  lemma {:induction false} ConvertAllKeepsTaggedInOrder(cs: seq<Element>)
    ensures |ConvertAll(cs)| == |Tagged(cs)|
    ensures forall j :: 0 <= j < |Tagged(cs)| ==> Convert(Tagged(cs)[j]) == Some(ConvertAll(cs)[j])
    decreases |cs|
  {
    if |cs| > 0 {
      ConvertAllKeepsTaggedInOrder(cs[..|cs| - 1]);
    }
  }

  /**
   `_element_to_node` returns `None` exactly for a missing or tag-less element;
   otherwise its kids are its tagged children, converted, in document order.
   */
  lemma ElementToNodeShape(el: Option<Element>)
    ensures ElementToNode(el).None? <==> el.None? || el.value.tag.None?
    ensures ElementToNode(el).Some? ==>
      var kids := ElementToNode(el).value.kids;
      var tagged := Tagged(el.value.children);
      && |kids| == |tagged|
      && forall j :: 0 <= j < |kids| ==> Convert(tagged[j]) == Some(kids[j])
  {
    if el.Some? && el.value.tag.Some? {
      ConvertAllKeepsTaggedInOrder(el.value.children);
    }
  }

  /** Counting and converting skip the same subtrees. */
  lemma {:induction false} CountIsConvertedSize(e: Element)
    ensures Count(e) == if Convert(e).Some? then TreeSize(Convert(e).value) else 0
    decreases e, 1
  {
    if e.tag.Some? {
      CountAllIsConvertedSize(e.children);
    }
  }

  lemma {:induction false} CountAllIsConvertedSize(cs: seq<Element>)
    ensures CountAll(cs) == ForestSize(ConvertAll(cs))
    decreases cs, 0
  {
    if |cs| > 0 {
      var init := cs[..|cs| - 1];
      var kid := Convert(cs[|cs| - 1]);
      CountAllIsConvertedSize(init);
      CountIsConvertedSize(cs[|cs| - 1]);
      ForestSizeAppend(ConvertAll(init), if kid.Some? then [kid.value] else []);
      if kid.Some? {
        assert [kid.value][..0] == [];
      }
    }
  }

  /**
   `_count_nodes(el)` is the number of nodes of `_element_to_node(el)`, and 0 when
   there is no node.
   */
  lemma CountNodesIsTreeSize(el: Option<Element>)
    ensures CountNodes(el) == if ElementToNode(el).Some? then TreeSize(ElementToNode(el).value) else 0
  {
    if el.Some? {
      CountIsConvertedSize(el.value);
    }
  }
}
