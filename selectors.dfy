/**
 * The design-mode selector resolver: the CSS selector the editor stores for a clicked
 * element, by id, by tag and classes when that is unique, or else by the path of
 * `tag:nth-of-type(i)` segments from `body` down to the element.
 */
module Selectors {
  import opened Wrappers
  import opened Dom
  import opened Strings

  /** Whether `a` is a proper ancestor of `q`. */
  predicate IsDescendant(dom: seq<Element>, q: Handle, a: Handle)
    requires WellFormed(dom) && q < |dom|
    decreases q
  {
    assert NodeOk(dom, q);
    dom[q].parent.Some? && (dom[q].parent.value == a || IsDescendant(dom, dom[q].parent.value, a))
  }

  /** `p.querySelectorAll(t)` for a lower-case tag name `t`: the descendants of `p` whose tag
      matches `t` (tag names match without regard to case). */
  function DescendantsWithTag(dom: seq<Element>, p: Handle, t: string): set<Handle>
    requires WellFormed(dom)
  {
    set q | 0 <= q < |dom| && IsDescendant(dom, q, p) && Lower(dom[q].tag) == t
  }

  /** The elements with tag `tag` along the previous-sibling chain that starts at `sib`. */
  function SameTagFrom(dom: seq<Element>, sib: Option<Handle>, tag: string): set<Handle>
    requires WellFormed(dom) && (sib.Some? ==> sib.value < |dom|)
    decreases if sib.Some? then sib.value + 1 else 0
  {
    match sib
    case None => {}
    case Some(p) =>
      assert NodeOk(dom, p);
      (if dom[p].tag == tag then {p} else {}) + SameTagFrom(dom, dom[p].prevSibling, tag)
  }

  /** The earlier element siblings of `h` that have its tag. */
  function EarlierSameTag(dom: seq<Element>, h: Handle): set<Handle>
    requires WellFormed(dom) && h < |dom|
  {
    assert NodeOk(dom, h);
    SameTagFrom(dom, dom[h].prevSibling, dom[h].tag)
  }

  /** The sibling chain from `p` backwards holds exactly the elements up to `p` that share
      its parent; those with tag `tag` are collected. */
  lemma {:induction false} SameTagFromMeaning(dom: seq<Element>, p: Handle, tag: string)
    requires WellFormed(dom) && p < |dom|
    ensures forall q :: q in SameTagFrom(dom, Some(p), tag) <==>
      0 <= q <= p && dom[q].parent == dom[p].parent && dom[q].tag == tag
    decreases p
  {
    assert NodeOk(dom, p);
    var prev := dom[p].prevSibling;
    if prev.Some? {
      SameTagFromMeaning(dom, prev.value, tag);
    }
  }

  /** The earlier same-tag siblings are exactly the earlier elements with the same parent and
      the same tag. */
  lemma EarlierSameTagMeaning(dom: seq<Element>, h: Handle)
    requires WellFormed(dom) && h < |dom|
    ensures forall q :: q in EarlierSameTag(dom, h) <==>
      0 <= q < h && dom[q].parent == dom[h].parent && dom[q].tag == dom[h].tag
  {
    assert NodeOk(dom, h);
    var prev := dom[h].prevSibling;
    if prev.Some? {
      SameTagFromMeaning(dom, prev.value, dom[h].tag);
    }
  }

  /** The `nth-of-type` index of `h`: 1 plus the number of earlier siblings with its tag. */
  method NthOfType(dom: seq<Element>, h: Handle) returns (index: nat)
    requires WellFormed(dom) && h < |dom|
    ensures index == 1 + |EarlierSameTag(dom, h)|
  {
    assert NodeOk(dom, h);
    var tag := dom[h].tag;
    index := 1;
    var sibling: Option<Handle> := dom[h].prevSibling;
    while sibling.Some?
      invariant sibling.Some? ==> sibling.value < |dom|
      invariant index + |SameTagFrom(dom, sibling, tag)| == 1 + |EarlierSameTag(dom, h)|
      decreases if sibling.Some? then sibling.value + 1 else 0
    {
      var s := sibling.value;
      assert NodeOk(dom, s);
      var rest := dom[s].prevSibling;
      if rest.Some? {
        SameTagFromMeaning(dom, rest.value, tag);
        assert s !in SameTagFrom(dom, rest, tag);
      }
      if dom[s].tag == tag {
        index := index + 1;
      }
      sibling := rest;
    }
  }

  /** The path segment of an element below `body`: its lower-case tag, with
      `:nth-of-type(i)` when its parent holds more than one element of that tag. */
  function Segment(dom: seq<Element>, h: Handle): (r: string)
    requires WellFormed(dom) && h < |dom| && dom[h].parent.Some?
    ensures r != ""
  {
    assert NodeOk(dom, h);
    var t := Lower(dom[h].tag);
    if |DescendantsWithTag(dom, dom[h].parent.value, t)| > 1
    then t + NthOfTypeSuffix(1 + |EarlierSameTag(dom, h)|)
    else t
  }

  /** `:nth-of-type(i)` */
  function NthOfTypeSuffix(i: nat): string {
    ":nth-of-type(" + NatToString(i) + ")"
  }

  /** The segments from just below `body` (or the root) down to `h`. */
  function PathSegments(dom: seq<Element>, body: Handle, h: Handle): seq<string>
    requires WellFormed(dom) && h < |dom|
    decreases h
  {
    assert NodeOk(dom, h);
    if h == body || dom[h].parent.None? then []
    else PathSegments(dom, body, dom[h].parent.value) + [Segment(dom, h)]
  }

  /** The selector by path: "body", then the segments joined by " > ", trimmed. */
  function PathSelector(dom: seq<Element>, body: Handle, h: Handle): string
    requires WellFormed(dom) && h < |dom|
  {
    Trim("body " + Join(PathSegments(dom, body, h), " > "))
  }

  /** A class list without the classes design mode itself adds. */
  function OwnClasses(cs: seq<string>): (r: seq<string>)
    ensures forall x :: x in r <==> x in cs && x != HighlightMark && x != SelectedMark
    decreases |cs|
  {
    if cs == [] then []
    else
      var last := cs[|cs| - 1];
      OwnClasses(cs[..|cs| - 1]) + (if last == HighlightMark || last == SelectedMark then [] else [last])
  }

  /** `tag.class1.class2` for the given classes. */
  function ClassSelectorOf(tag: string, cs: seq<string>): string {
    Lower(tag) + "." + Join(cs, ".")
  }

  /** The class selector as the resolver writes it, from the whole current class list. */
  function ClassSelectorAsWritten(e: Element): string {
    ClassSelectorOf(e.tag, e.classes)
  }

  /** The class selector from the element's own classes. */
  function ClassSelector(e: Element): string {
    ClassSelectorOf(e.tag, OwnClasses(e.classes))
  }

  /** The classes the resolver builds its class selector from: the whole current class list
      as written, the element's own classes when `ownOnly` (the corrected resolver). */
  function ResolverClasses(e: Element, ownOnly: bool): seq<string> {
    if ownOnly then OwnClasses(e.classes) else e.classes
  }

  /** Whether the class branch applies: there are classes to use and the class selector built
      from them matches exactly one element. */
  predicate ClassBranch(e: Element, query: string -> seq<Handle>, ownOnly: bool) {
    var cs := ResolverClasses(e, ownOnly);
    cs != [] && |query(ClassSelectorOf(e.tag, cs))| == 1
  }

  /** Whether the corrected class branch applies. */
  predicate ClassSelectorUnique(e: Element, query: string -> seq<Handle>) {
    ClassBranch(e, query, true)
  }

  /** What the resolver answers: `#id` when the element has an id; else its class selector
      when that matches exactly one element; else its path from `body`. */
  function Selector(dom: seq<Element>, body: Handle, query: string -> seq<Handle>, h: Handle,
                    ownOnly: bool): string
    requires WellFormed(dom) && h < |dom|
  {
    var e := dom[h];
    if e.id != "" then "#" + e.id
    else if ClassBranch(e, query, ownOnly) then ClassSelectorOf(e.tag, ResolverClasses(e, ownOnly))
    else PathSelector(dom, body, h)
  }

  /** `getUniqueSelector(el)` as written: the class branch is taken whenever the element has
      any class, the editor's own highlight and selection marks included, and its selector is
      built from the whole class list. */
  method UniqueSelector(dom: seq<Element>, body: Handle, query: string -> seq<Handle>, h: Handle)
    returns (sel: string)
    requires WellFormed(dom) && h < |dom|
    ensures sel == Selector(dom, body, query, h, false)
    ensures dom[h].id != "" ==> sel == "#" + dom[h].id
    ensures dom[h].id == "" && dom[h].classes != [] && |query(ClassSelectorAsWritten(dom[h]))| == 1
            ==> sel == ClassSelectorAsWritten(dom[h])
    ensures dom[h].id == "" && (dom[h].classes == [] || |query(ClassSelectorAsWritten(dom[h]))| != 1)
            ==> sel == PathSelector(dom, body, h)
  {
    var el := dom[h];
    if el.id != "" {
      return "#" + el.id;
    }
    if el.classes != [] {
      var classSelector := ClassSelectorOf(el.tag, el.classes);
      if |query(classSelector)| == 1 {
        return classSelector;
      }
    }
    var path := PathFor(dom, body, h);
    return Trim(path);
  }

  /** The resolver corrected to build its class selector from the element's own classes, so
      that a selector recorded in design mode still matches once the editor is gone. */
  method UniqueSelectorOwnClasses(dom: seq<Element>, body: Handle, query: string -> seq<Handle>,
                                  h: Handle)
    returns (sel: string)
    requires WellFormed(dom) && h < |dom|
    ensures sel == Selector(dom, body, query, h, true)
    ensures dom[h].id != "" ==> sel == "#" + dom[h].id
    ensures dom[h].id == "" && ClassSelectorUnique(dom[h], query) ==> sel == ClassSelector(dom[h])
    ensures dom[h].id == "" && !ClassSelectorUnique(dom[h], query) ==> sel == PathSelector(dom, body, h)
  {
    var el := dom[h];
    if el.id != "" {
      return "#" + el.id;
    }
    var own := OwnClasses(el.classes);
    if own != [] {
      var classSelector := ClassSelectorOf(el.tag, own);
      if |query(classSelector)| == 1 {
        return classSelector;
      }
    }
    var path := PathFor(dom, body, h);
    return Trim(path);
  }

  /** The path branch of the resolver, before trimming: walks up from `h` to `body` (or the
      root), putting each element's segment in front of the path built so far. */
  method PathFor(dom: seq<Element>, body: Handle, h: Handle) returns (path: string)
    requires WellFormed(dom) && h < |dom|
    ensures path == "body " + Join(PathSegments(dom, body, h), " > ")
  {
    path := "";
    var cur: Handle := h;
    ghost var done: seq<string> := [];
    while cur != body && dom[cur].parent.Some?
      invariant cur < |dom|
      invariant PathSegments(dom, body, h) == PathSegments(dom, body, cur) + done
      invariant path == Join(done, " > ")
      invariant done == [] || done[0] != ""
      decreases cur
    {
      var segment := SegmentFor(dom, cur);
      var parent := dom[cur].parent.value;
      PathSegmentsStep(dom, body, h, cur, done);
      JoinCons(segment, done, " > ");
      path := segment + (if path != "" then " > " + path else "");
      done := [segment] + done;
      cur := parent;
    }
    PathSegmentsTop(dom, body, cur);
    assert done == PathSegments(dom, body, h);
    path := "body " + path;
  }

  lemma PathSegmentsTop(dom: seq<Element>, body: Handle, h: Handle)
    requires WellFormed(dom) && h < |dom| && (h == body || dom[h].parent.None?)
    ensures PathSegments(dom, body, h) == []
  {
  }

  /** Moving the walk one element up puts that element's segment in front. */
  lemma PathSegmentsStep(dom: seq<Element>, body: Handle, h: Handle, cur: Handle, done: seq<string>)
    requires WellFormed(dom) && h < |dom| && cur < |dom| && cur != body && dom[cur].parent.Some?
    requires PathSegments(dom, body, h) == PathSegments(dom, body, cur) + done
    ensures dom[cur].parent.value < cur
    ensures PathSegments(dom, body, h)
         == PathSegments(dom, body, dom[cur].parent.value) + ([Segment(dom, cur)] + done)
  {
    assert NodeOk(dom, cur);
    PathSegmentsUp(dom, body, cur);
    ConsAssoc(PathSegments(dom, body, dom[cur].parent.value), Segment(dom, cur), done);
  }

  lemma PathSegmentsUp(dom: seq<Element>, body: Handle, cur: Handle)
    requires WellFormed(dom) && cur < |dom| && cur != body && dom[cur].parent.Some?
    ensures dom[cur].parent.value < cur
    ensures PathSegments(dom, body, cur)
         == PathSegments(dom, body, dom[cur].parent.value) + [Segment(dom, cur)]
  {
    assert NodeOk(dom, cur);
  }

  lemma ConsAssoc(a: seq<string>, x: string, d: seq<string>)
    ensures (a + [x]) + d == a + ([x] + d)
  {
  }

  /** One segment of the path: the tag, and the index when the parent holds several
      elements of that tag. */
  method SegmentFor(dom: seq<Element>, h: Handle) returns (segment: string)
    requires WellFormed(dom) && h < |dom| && dom[h].parent.Some?
    ensures segment == Segment(dom, h)
  {
    var index := NthOfType(dom, h);
    segment := Lower(dom[h].tag);
    if |DescendantsWithTag(dom, dom[h].parent.value, segment)| > 1 {
      segment := segment + NthOfTypeSuffix(index);
    }
  }

  /** The path selector always begins with `body`. */
  lemma PathSelectorStartsWithBody(dom: seq<Element>, body: Handle, h: Handle)
    requires WellFormed(dom) && h < |dom|
    ensures StartsWith(PathSelector(dom, body, h), "body")
  {
    var rest := " " + Join(PathSegments(dom, body, h), " > ");
    assert "body " + Join(PathSegments(dom, body, h), " > ") == "body" + rest;
    TrimKeepsLeadingWord("body", rest);
  }

  /** An element with an earlier sibling of its tag always gets an `nth-of-type` index:
      its parent then holds at least two elements of that tag. */
  lemma IndexShownWhenEarlierSibling(dom: seq<Element>, h: Handle)
    requires WellFormed(dom) && h < |dom| && dom[h].parent.Some?
    requires EarlierSameTag(dom, h) != {}
    ensures |DescendantsWithTag(dom, dom[h].parent.value, Lower(dom[h].tag))| > 1
    ensures Segment(dom, h) == Lower(dom[h].tag) + NthOfTypeSuffix(1 + |EarlierSameTag(dom, h)|)
  {
    var p := dom[h].parent.value;
    var t := Lower(dom[h].tag);
    var q :| q in EarlierSameTag(dom, h);
    EarlierSameTagMeaning(dom, h);
    assert q < h && dom[q].parent == dom[h].parent && dom[q].tag == dom[h].tag;
    var s := DescendantsWithTag(dom, p, t);
    assert q in s && h in s;
    assert h in s - {q};
    assert |s - {q}| >= 1;
  }

  /** The design-mode classes never reach the class selector: the element's selector is the
      same whether or not it is highlighted or marked selected. */
  lemma ClassSelectorIgnoresEditorMarks(e: Element, query: string -> seq<Handle>, x: string)
    requires x == HighlightMark || x == SelectedMark
    ensures var e' := e.(classes := AddClass(e.classes, x));
      && ClassSelector(e') == ClassSelector(e)
      && ClassSelectorUnique(e', query) == ClassSelectorUnique(e, query)
  {
    var cs := e.classes;
    if x !in cs {
      var cs' := cs + [x];
      assert cs'[..|cs'| - 1] == cs && cs'[|cs'| - 1] == x;
      assert OwnClasses(cs') == OwnClasses(cs) + [];
    }
    assert OwnClasses(AddClass(cs, x)) == OwnClasses(cs);
  }

  /** As written, an id-less element whose only class is the editor's highlight, and which is
      the one element the page currently highlights, is recorded under the class selector
      `tag.ab-optimizer-highlight`, which no element carries once the editor is gone; the
      corrected resolver records its path instead. */
  lemma HighlightLeaksAsWritten(dom: seq<Element>, body: Handle, query: string -> seq<Handle>, h: Handle)
    requires WellFormed(dom) && h < |dom|
    requires dom[h].id == "" && dom[h].classes == [HighlightMark]
    requires query(Lower(dom[h].tag) + "." + HighlightMark) == [h]
    ensures Selector(dom, body, query, h, false) == Lower(dom[h].tag) + "." + HighlightMark
    ensures Selector(dom, body, query, h, true) == PathSelector(dom, body, h)
  {
    assert Join([HighlightMark], ".") == HighlightMark;
    assert ClassSelectorAsWritten(dom[h]) == Lower(dom[h].tag) + "." + HighlightMark;
    assert OwnClasses([HighlightMark]) == OwnClasses([]) + [];
  }

  /** The same for a concrete paragraph: its selector as written is `p.ab-optimizer-highlight`. */
  lemma HighlightedParagraphAsWritten()
    ensures var e := Element("P", "", [HighlightMark], None, None, None, "", Markup(""), "", 0);
      ClassSelectorAsWritten(e) == "p." + HighlightMark
  {
    assert Lower("P") == "p" by {
      assert LowerChar('P') == 'p';
    }
    assert Join([HighlightMark], ".") == HighlightMark;
  }
}
