/**
 * The page as the client sees it: a heap of element records in document order, addressed by
 * handles (positions). Tree links (parent, previous element sibling, first `<source>`
 * descendant) are handles into the same heap.
 */
module Dom {
  import opened Wrappers

  type Handle = nat

  /** The classes design mode puts on page elements: the one it marks edited elements with,
      and the one it puts on the element under the mouse. */
  const SelectedMark := "ab-optimizer-selected"
  const HighlightMark := "ab-optimizer-highlight"

  /** What an element holds after its content was last set: markup through `innerHTML`, or
      plain text through `textContent`. */
  datatype Content = Markup(html: string) | PlainText(text: string)

  datatype Element = Element(
    tag: string,                  // `tagName`, upper case for HTML elements
    id: string,                   // "" when the element has no id
    classes: seq<string>,         // `classList`, in order, without duplicates
    parent: Option<Handle>,       // `parentElement`
    prevSibling: Option<Handle>,  // `previousElementSibling`
    firstSource: Option<Handle>,  // `querySelector('source')`
    opacity: string,              // `style.opacity`
    content: Content,
    src: string,
    loads: nat)                   // how many times `load()` was called on it

  /** The parts of an element that the client never changes. */
  datatype Shape = Shape(tag: string, id: string, parent: Option<Handle>,
                         prevSibling: Option<Handle>, firstSource: Option<Handle>)

  function ShapeOf(e: Element): Shape {
    Shape(e.tag, e.id, e.parent, e.prevSibling, e.firstSource)
  }

  /** Same elements, same tree; only styles, content, sources and classes may differ. */
  predicate SameTree(a: seq<Element>, b: seq<Element>) {
    |a| == |b| && forall k :: 0 <= k < |a| ==> ShapeOf(a[k]) == ShapeOf(b[k])
  }

  /** Document order: a parent comes before its children; the previous element sibling is
      the nearest earlier element with the same parent (no earlier one when there is none);
      the first `<source>` descendant comes after its element; every element has a tag. */
  predicate WellFormed(dom: seq<Element>) {
    forall k :: 0 <= k < |dom| ==> NodeOk(dom, k)
  }

  predicate NodeOk(dom: seq<Element>, k: nat)
    requires k < |dom|
  {
    var e := dom[k];
    && e.tag != ""
    && (e.parent.Some? ==> e.parent.value < k)
    && (e.prevSibling.Some? ==>
          var p := e.prevSibling.value;
          && p < k && dom[p].parent == e.parent
          && forall q :: p < q < k ==> dom[q].parent != e.parent)
    && (e.prevSibling.None? ==> forall q :: 0 <= q < k ==> dom[q].parent != e.parent)
    && (e.firstSource.Some? ==> k < e.firstSource.value < |dom|)
  }

  /** `querySelectorAll` returns elements of the page, in document order, each once. */
  ghost predicate QueryOk(query: string -> seq<Handle>, n: nat) {
    && (forall sel: string, i :: 0 <= i < |query(sel)| ==> query(sel)[i] < n)
    && (forall sel: string, i, j :: 0 <= i < j < |query(sel)| ==> query(sel)[i] < query(sel)[j])
  }

  lemma SameTreeKeepsWellFormed(a: seq<Element>, b: seq<Element>)
    requires SameTree(a, b) && WellFormed(a)
    ensures WellFormed(b)
  {
    forall k | 0 <= k < |b| ensures NodeOk(b, k) {
      assert NodeOk(a, k);
      assert ShapeOf(a[k]) == ShapeOf(b[k]);
      forall q | 0 <= q < k ensures a[q].parent == b[q].parent {
        assert ShapeOf(a[q]) == ShapeOf(b[q]);
      }
    }
  }

  /** `tagName.match(/^H[1-6]$/)` */
  predicate IsHeading(tag: string) {
    |tag| == 2 && tag[0] == 'H' && '1' <= tag[1] <= '6'
  }

  /** `classList.add(c)` */
  function AddClass(cs: seq<string>, c: string): (r: seq<string>)
    ensures c in r
    ensures forall x :: x in r <==> x in cs || x == c
  {
    if c in cs then cs else cs + [c]
  }

  /** `classList.remove(c)` */
  function RemoveClass(cs: seq<string>, c: string): (r: seq<string>)
    ensures forall x :: x in r <==> x in cs && x != c
  {
    if cs == [] then []
    else if cs[0] == c then RemoveClass(cs[1..], c)
    else [cs[0]] + RemoveClass(cs[1..], c)
  }
}
