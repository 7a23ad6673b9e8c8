/** The parsed XML document as a tree, and the two DOM lookups the parsers use:
    `getElementsByTagName` (every match, in document order) and `querySelector`
    with a bare tag name (the first match in document order). On a document
    both search every element, the root included; on an element they search
    only its descendants. */
module Xml {
  import opened Wrappers

  datatype Element = Element(tag: string, attrs: map<string, string>, children: seq<Element>)

  datatype Document = Document(root: Element)

  /** `getAttribute`: the attribute's value, or `null` when it is absent. */
  function Attr(e: Element, name: string): Option<string> {
    if name in e.attrs then Some(e.attrs[name]) else None
  }

  /** `String(e.getAttribute(name))`: an absent attribute reads as "null". */
  function AttrText(e: Element, name: string): (r: string)
    ensures name in e.attrs ==> r == e.attrs[name]
    ensures name !in e.attrs ==> r == "null"
  {
    match Attr(e, name)
    case Some(v) => v
    case None => "null"
  }

  /** `e` followed by its descendants, in document (preorder) order. */
  function Subtree(e: Element): (r: seq<Element>)
    ensures r != [] && r[0] == e
    decreases e
  {
    [e] + Forest(e.children)
  }

  /** The subtrees of a list of siblings, one after the other. */
  function Forest(cs: seq<Element>): (r: seq<Element>)
    ensures |r| >= |cs|
    decreases cs
  {
    if cs == [] then [] else Subtree(cs[0]) + Forest(cs[1..])
  }

  function Descendants(e: Element): seq<Element> {
    Forest(e.children)
  }

  /** Every element of the document, the root first. */
  function AllElements(d: Document): seq<Element> {
    Subtree(d.root)
  }

  /** The elements of `nodes` whose tag is `tag`, in their order. */
  function WithTag(nodes: seq<Element>, tag: string): (r: seq<Element>)
    ensures |r| <= |nodes|
    decreases |nodes|
  {
    if nodes == [] then []
    else
      var rest := WithTag(nodes[..|nodes| - 1], tag);
      var last := nodes[|nodes| - 1];
      if last.tag == tag then rest + [last] else rest
  }

  /** The search keeps exactly the elements with the tag. */
  lemma {:induction false} WithTagMembers(nodes: seq<Element>, tag: string)
    ensures forall x :: x in WithTag(nodes, tag) <==> x in nodes && x.tag == tag
    decreases |nodes|
  {
    if nodes != [] {
      var init := nodes[..|nodes| - 1];
      WithTagMembers(init, tag);
      assert nodes == init + [nodes[|nodes| - 1]];
    }
  }

  /** `document.getElementsByTagName(tag)`. */
  function DocElementsByTag(d: Document, tag: string): seq<Element> {
    WithTag(AllElements(d), tag)
  }

  /** `element.getElementsByTagName(tag)`. */
  function ElementsByTag(e: Element, tag: string): seq<Element> {
    WithTag(Descendants(e), tag)
  }

  /** The first element of `nodes` with the given tag. */
  function FirstWithTag(nodes: seq<Element>, tag: string): (r: Option<Element>)
    ensures r.Some? <==> WithTag(nodes, tag) != []
    ensures r.Some? ==> r.value == WithTag(nodes, tag)[0]
  {
    var found := WithTag(nodes, tag);
    if found == [] then None else Some(found[0])
  }

  /** The first match exists exactly when some element has the tag, and it
      is the earliest such element. */
  lemma FirstWithTagIsFirst(nodes: seq<Element>, tag: string)
    ensures FirstWithTag(nodes, tag).Some? <==> exists x :: x in nodes && x.tag == tag
    ensures FirstWithTag(nodes, tag).Some? ==>
      exists i :: 0 <= i < |nodes| && nodes[i] == FirstWithTag(nodes, tag).value
        && nodes[i].tag == tag && forall j :: 0 <= j < i ==> nodes[j].tag != tag
  {
    WithTagMembers(nodes, tag);
    if FirstWithTag(nodes, tag).Some? {
      assert WithTag(nodes, tag)[0] in WithTag(nodes, tag);
      FirstIndex(nodes, tag);
    }
  }

  /** `WithTag(nodes, tag)[0]` sits at the first index holding the tag. */
  lemma {:induction false} FirstIndex(nodes: seq<Element>, tag: string)
    requires WithTag(nodes, tag) != []
    ensures exists i :: (0 <= i < |nodes| && nodes[i] == WithTag(nodes, tag)[0]
      && nodes[i].tag == tag && forall j :: 0 <= j < i ==> nodes[j].tag != tag)
    decreases |nodes|
  {
    var init := nodes[..|nodes| - 1];
    if WithTag(init, tag) != [] {
      FirstIndex(init, tag);
      var i :| 0 <= i < |init| && init[i] == WithTag(init, tag)[0]
        && init[i].tag == tag && forall j :: 0 <= j < i ==> init[j].tag != tag;
      assert nodes[i] == init[i];
    } else {
      var i := |nodes| - 1;
      WithTagMembers(init, tag);
      forall j | 0 <= j < i
        ensures nodes[j].tag != tag
      {
        assert nodes[j] == init[j] && init[j] in init;
      }
    }
  }

  /** `document.querySelector(tag)`. */
  function DocQuery(d: Document, tag: string): Option<Element> {
    FirstWithTag(AllElements(d), tag)
  }

  /** `element.querySelector(tag)`. */
  function ElementQuery(e: Element, tag: string): Option<Element> {
    FirstWithTag(Descendants(e), tag)
  }

  /** The browser's XML parser reports a malformed document by placing a
      `parsererror` element in the tree it returns. */
  predicate HasParseError(d: Document) {
    |DocElementsByTag(d, "parsererror")| > 0
  }

  /** `documentElement.getAttribute('Name')`. */
  function RootName(d: Document): Option<string> {
    Attr(d.root, "Name")
  }
}
