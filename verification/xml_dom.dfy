/**
 * An abstract XML element tree standing in for the W3C DOM the backend
 * works on: elements with a tag, a namespace, attributes, their own text and
 * child elements. Elements are addressed by paths of child indexes from an
 * element.
 */
module XmlDom {
  import opened Wrappers

  datatype Element = Element(tag: string, namespaceURI: Option<string>, attributes: map<string, string>,
                             text: string, children: seq<Element>)

  /** A parsed document: its document element, absent for an empty document. */
  datatype Document = Document(root: Option<Element>)

  /** A new element as `document.createElement(tag)` makes it: no namespace, attributes, text or children. */
  function NewElement(tag: string): Element {
    Element(tag, None, map[], "", [])
  }

  /** `getElementsByTagName(name)` matches the tag, and `*` matches every element. */
  predicate Matches(tag: string, name: string) {
    name == "*" || tag == name
  }

  /** Every tag in the tree is non-empty, as an XML name is. */
  predicate WellFormed(e: Element)
    decreases e, 1
  {
    e.tag != "" && AllWellFormed(e.children)
  }

  predicate AllWellFormed(cs: seq<Element>)
    decreases cs, 0
  {
    cs != [] ==> WellFormed(cs[0]) && AllWellFormed(cs[1..])
  }

  /**
   * `getTextContent()`, up to order: the element's own text followed by the text
   * of its descendants. The DOM joins text nodes in document order, which differs
   * for mixed content; the model keeps an element's text in one piece, and its
   * callers only ask whether the result is blank, which the order does not change.
   */
  function TextContent(e: Element): string
    decreases e, 1
  {
    e.text + TextContentIn(e.children)
  }

  function TextContentIn(cs: seq<Element>): string
    decreases cs, 0
  {
    if cs == [] then "" else TextContent(cs[0]) + TextContentIn(cs[1..])
  }

  /** `getElementsByTagName(name)`: the matching descendants of `e` (not `e` itself), in document order. */
  function ByTag(e: Element, name: string): (r: seq<Element>)
    ensures forall i :: 0 <= i < |r| ==> Matches(r[i].tag, name)
    decreases e, 1
  {
    ByTagIn(e.children, name)
  }

  function ByTagIn(cs: seq<Element>, name: string): (r: seq<Element>)
    ensures forall i :: 0 <= i < |r| ==> Matches(r[i].tag, name)
    decreases cs, 0
  {
    if cs == [] then []
    else (if Matches(cs[0].tag, name) then [cs[0]] else []) + ByTag(cs[0], name) + ByTagIn(cs[1..], name)
  }

  /** The number of elements in the tree. */
  function Size(e: Element): nat
    decreases e, 1
  {
    1 + SizeIn(e.children)
  }

  function SizeIn(cs: seq<Element>): nat
    decreases cs, 0
  {
    if cs == [] then 0 else Size(cs[0]) + SizeIn(cs[1..])
  }

  // ---------------------------------------------------------------------
  // Paths
  // ---------------------------------------------------------------------

  /** `p` leads from `e` to an element: each index picks a child. */
  predicate ValidPath(e: Element, p: seq<nat>)
    decreases e, 1
  {
    p == [] || ValidPathIn(e.children, p)
  }

  predicate ValidPathIn(cs: seq<Element>, p: seq<nat>)
    decreases cs, 0
  {
    p != [] && p[0] < |cs| && ValidPath(cs[p[0]], p[1..])
  }

  /** The element `p` leads to from `e`. */
  function At(e: Element, p: seq<nat>): Element
    requires ValidPath(e, p)
    decreases e, 1
  {
    if p == [] then e else AtIn(e.children, p)
  }

  function AtIn(cs: seq<Element>, p: seq<nat>): Element
    requires ValidPathIn(cs, p)
    decreases cs, 0
  {
    At(cs[p[0]], p[1..])
  }

  /** Following `p` and then `q` is following `p + q`. */
  lemma {:induction false} PathConcat(e: Element, p: seq<nat>, q: seq<nat>)
    requires ValidPath(e, p) && ValidPath(At(e, p), q)
    ensures ValidPath(e, p + q) && At(e, p + q) == At(At(e, p), q)
    decreases p
  {
    if p == [] {
      assert p + q == q;
    } else {
      assert ValidPathIn(e.children, p);
      var c := e.children[p[0]];
      assert At(e, p) == At(c, p[1..]);
      PathConcat(c, p[1..], q);
      assert (p + q)[0] == p[0] && (p + q)[1..] == p[1..] + q;
    }
  }

  /** `e` with `child` appended to the children of the element at `p` (`appendChild`). */
  function AppendAt(e: Element, p: seq<nat>, child: Element): (r: Element)
    requires ValidPath(e, p)
    ensures r.tag == e.tag
    decreases p
  {
    if p == [] then e.(children := e.children + [child])
    else
      assert ValidPathIn(e.children, p);
      e.(children := e.children[p[0] := AppendAt(e.children[p[0]], p[1..], child)])
  }

  /** After an append the new child sits at the end of the element's children. */
  lemma {:induction false} AppendedChild(e: Element, p: seq<nat>, child: Element)
    requires ValidPath(e, p)
    ensures ValidPath(AppendAt(e, p, child), p)
    ensures At(AppendAt(e, p, child), p).tag == At(e, p).tag
    ensures |At(AppendAt(e, p, child), p).children| == |At(e, p).children| + 1
    ensures ValidPath(AppendAt(e, p, child), p + [|At(e, p).children|])
    ensures At(AppendAt(e, p, child), p + [|At(e, p).children|]) == child
    decreases p
  {
    var r := AppendAt(e, p, child);
    if p == [] {
      var k := |e.children|;
      assert ValidPath(r.children[k], [k][1..]);
      assert ValidPathIn(r.children, [k]);
      assert At(r, [k]) == At(r.children[k], []);
    } else {
      assert ValidPathIn(e.children, p);
      AppendedChild(e.children[p[0]], p[1..], child);
      assert (p + [|At(e, p).children|])[1..] == p[1..] + [|At(e, p).children|];
    }
  }

  /** An append keeps every element that was there, under the same path and tag. */
  lemma {:induction false} AppendKeeps(e: Element, p: seq<nat>, child: Element, x: seq<nat>)
    requires ValidPath(e, p) && ValidPath(e, x)
    ensures ValidPath(AppendAt(e, p, child), x) && At(AppendAt(e, p, child), x).tag == At(e, x).tag
    decreases x
  {
    if x != [] && p != [] && x[0] == p[0] {
      AppendKeeps(e.children[p[0]], p[1..], child, x[1..]);
    }
  }

  /** An append adds exactly one element. */
  lemma {:induction false} AppendSize(e: Element, p: seq<nat>, child: Element)
    requires ValidPath(e, p)
    ensures Size(AppendAt(e, p, child)) == Size(e) + Size(child)
    decreases p
  {
    var r := AppendAt(e, p, child);
    if p == [] {
      SizeInConcat(e.children, [child]);
    } else {
      AppendSize(e.children[p[0]], p[1..], child);
      SizeInUpdate(e.children, p[0], r.children[p[0]]);
    }
  }

  lemma {:induction false} SizeInConcat(a: seq<Element>, b: seq<Element>)
    ensures SizeIn(a + b) == SizeIn(a) + SizeIn(b)
    decreases |a|
  {
    if a != [] {
      SizeInConcat(a[1..], b);
      assert (a + b)[1..] == a[1..] + b;
    } else {
      assert a + b == b;
    }
  }

  lemma {:induction false} SizeInUpdate(cs: seq<Element>, i: nat, x: Element)
    requires i < |cs|
    ensures SizeIn(cs[i := x]) == SizeIn(cs) - Size(cs[i]) + Size(x)
    decreases |cs|
  {
    if i > 0 {
      SizeInUpdate(cs[1..], i - 1, x);
      assert cs[i := x][1..] == cs[1..][i - 1 := x];
    }
  }

  // ---------------------------------------------------------------------
  // The first match in document order
  // ---------------------------------------------------------------------

  /** The path from `e` to the first descendant matching `name`, in document order. */
  function Find(e: Element, name: string): Option<seq<nat>>
    decreases e, 1
  {
    FindIn(e.children, name)
  }

  function FindIn(cs: seq<Element>, name: string): Option<seq<nat>>
    decreases cs, 0
  {
    if cs == [] then None
    else if Matches(cs[0].tag, name) then Some([0])
    else match Find(cs[0], name)
      case Some(p) => Some([0] + p)
      case None =>
        match FindIn(cs[1..], name)
        case Some(q) => if q == [] then None else Some([q[0] + 1] + q[1..])
        case None => None
  }

  /**
   * `Find` agrees with `getElementsByTagName`: it finds nothing exactly when
   * the list is empty, and otherwise leads to the list's first element.
   */
  lemma {:induction false} FindIsFirstByTag(e: Element, name: string)
    ensures Find(e, name).None? <==> ByTag(e, name) == []
    ensures Find(e, name).Some? ==> |Find(e, name).value| >= 1 && ValidPath(e, Find(e, name).value)
                                    && At(e, Find(e, name).value) == ByTag(e, name)[0]
    decreases e, 1
  {
    FindInIsFirst(e.children, name);
  }

  lemma {:induction false} FindInIsFirst(cs: seq<Element>, name: string)
    ensures FindIn(cs, name).None? <==> ByTagIn(cs, name) == []
    ensures FindIn(cs, name).Some? ==> ValidPathIn(cs, FindIn(cs, name).value)
                                       && AtIn(cs, FindIn(cs, name).value) == ByTagIn(cs, name)[0]
    decreases cs, 0
  {
    if cs != [] && !Matches(cs[0].tag, name) {
      FindIsFirstByTag(cs[0], name);
      var head := Find(cs[0], name);
      if head.Some? {
        var p := head.value;
        assert ([0] + p)[1..] == p;
      } else {
        FindInIsFirst(cs[1..], name);
        var tail := FindIn(cs[1..], name);
        if tail.Some? {
          var q := tail.value;
          var r := [q[0] + 1] + q[1..];
          assert r[1..] == q[1..] && cs[r[0]] == cs[1..][q[0]];
        }
      }
    } else if cs != [] {
      assert ValidPath(cs[0], [0][1..]);
    }
  }

  /** No element of a well-formed tree matches the empty name. */
  lemma {:induction false} NothingMatchesEmpty(e: Element)
    requires WellFormed(e)
    ensures ByTag(e, "") == []
    decreases e, 1
  {
    NothingInMatchesEmpty(e.children);
  }

  lemma {:induction false} NothingInMatchesEmpty(cs: seq<Element>)
    requires AllWellFormed(cs)
    ensures ByTagIn(cs, "") == []
    decreases cs, 0
  {
    if cs != [] {
      NothingMatchesEmpty(cs[0]);
      NothingInMatchesEmpty(cs[1..]);
    }
  }
}
