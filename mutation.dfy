/**
 * The element changes a variation makes to the page: every change record is dispatched to
 * every element its selector matches, and the action, the change type and the element's
 * tag decide which field is set. Three engines share the dispatch: the live client, the
 * live client exactly as written, and the design-mode replay of a stored variation.
 */
module Mutation {
  import opened Wrappers
  import opened Dom
  import opened Records

  const Faded := "0.3"
  const Opaque := "1.0"

  datatype Engine =
    | Serving           // the live client, honouring 'iframe' changes
    | ServingAsWritten  // the live client's switch as written
    | Replay            // design mode re-applying a stored variation

  /** What a DOMString attribute (`innerHTML`, `src`) becomes when assigned `newContent`:
      an absent value is `undefined`, which converts to the text "undefined". */
  function DomString(v: Option<string>): string {
    if v.Some? then v.value else "undefined"
  }

  /** What the nullable `textContent` becomes: `undefined` converts to null, i.e. "". */
  function NullableDomString(v: Option<string>): string {
    if v.Some? then v.value else ""
  }

  /** A text change: a heading H1-H6 gets plain text, any other tag gets markup. */
  function TextContent(tag: string, v: Option<string>): Content {
    if IsHeading(tag) then PlainText(NullableDomString(v)) else Markup(DomString(v))
  }

  /** Whether a change takes the modify branch: live, every action but 'hide' and 'show'
      (`case 'modify': default:`); in the replay, every action but 'hide'. */
  predicate Modifies(c: Change, engine: Engine) {
    c.action != Hide && (engine == Replay || c.action != Show)
  }

  /** A video change on a VIDEO element sets a source and reloads the element. */
  predicate Reloads(tag: string, c: Change, engine: Engine) {
    Modifies(c, engine) && c.kind == VideoKind && tag == "VIDEO"
  }

  /** What a change does to the element itself, the VIDEO reload aside. */
  function ElementEffect(e: Element, c: Change, engine: Engine): Element {
    var url := DomString(c.newContent);
    if c.action == Hide then e.(opacity := Faded)
    else if !Modifies(c, engine) then e.(opacity := Opaque)
    else if c.kind == TextKind then e.(content := TextContent(e.tag, c.newContent))
    else if c.kind == ImageKind && e.tag == "IMG" then e.(src := url)
    else if c.kind == VideoKind && e.tag == "IFRAME" then e.(src := url)
    else if c.kind == IframeKind && e.tag == "IFRAME" && engine != ServingAsWritten then e.(src := url)
    else e
  }

  /** `classList.add('ab-optimizer-selected')` */
  function Mark(e: Element): Element {
    e.(classes := AddClass(e.classes, SelectedMark))
  }

  /** The whole effect on a matched element that is not reloaded. */
  function Touch(e: Element, c: Change, engine: Engine): Element {
    var e1 := ElementEffect(e, c, engine);
    if engine == Replay then Mark(e1) else e1
  }

  /** `load()` after setting the `src` of the first `<source>` descendant, or of the
      element itself when it has none. */
  function Reload(dom: seq<Element>, h: Handle, url: string): (d: seq<Element>)
    requires WellFormed(dom) && h < |dom|
    ensures SameTree(dom, d)
  {
    assert NodeOk(dom, h);
    var e := dom[h];
    if e.firstSource.Some? then
      var s := e.firstSource.value;
      dom[s := dom[s].(src := url)][h := e.(loads := e.loads + 1)]
    else dom[h := e.(src := url, loads := e.loads + 1)]
  }

  /** One change handled for one matched element. */
  function Step(dom: seq<Element>, h: Handle, c: Change, engine: Engine): (d: seq<Element>)
    requires WellFormed(dom) && h < |dom|
    ensures SameTree(dom, d) && WellFormed(d)
  {
    var e := dom[h];
    var d0 := if Reloads(e.tag, c, engine) then Reload(dom, h, DomString(c.newContent))
              else dom[h := ElementEffect(e, c, engine)];
    var d1 := if engine == Replay then d0[h := Mark(d0[h])] else d0;
    assert SameTree(dom, d0);
    SameTreeKeepsWellFormed(dom, d1);
    d1
  }

  predicate InRange(hs: seq<Handle>, n: nat) {
    forall i :: 0 <= i < |hs| ==> hs[i] < n
  }

  /** One change handled for the matched elements `hs`, in order. */
  function StepAll(dom: seq<Element>, hs: seq<Handle>, c: Change, engine: Engine): (d: seq<Element>)
    requires WellFormed(dom) && InRange(hs, |dom|)
    ensures SameTree(dom, d) && WellFormed(d)
    decreases |hs|
  {
    if hs == [] then dom
    else Step(StepAll(dom, hs[..|hs| - 1], c, engine), hs[|hs| - 1], c, engine)
  }

  /** One change applied to every element its selector matches. */
  function ApplyChange(dom: seq<Element>, c: Change, query: string -> seq<Handle>,
                       engine: Engine): (d: seq<Element>)
    requires WellFormed(dom) && QueryOk(query, |dom|)
    ensures SameTree(dom, d) && WellFormed(d)
  {
    StepAll(dom, query(c.selector), c, engine)
  }

  /** The changes applied in order. */
  function ApplyChanges(dom: seq<Element>, cs: seq<Change>, query: string -> seq<Handle>,
                        engine: Engine): (d: seq<Element>)
    requires WellFormed(dom) && QueryOk(query, |dom|)
    ensures SameTree(dom, d) && WellFormed(d)
    decreases |cs|
  {
    if cs == [] then dom
    else
      var d0 := ApplyChanges(dom, cs[..|cs| - 1], query, engine);
      ApplyChange(d0, cs[|cs| - 1], query, engine)
  }

  /** A variation's `elementData` applied; nothing happens when it is missing. */
  function Apply(dom: seq<Element>, elementData: Option<seq<Change>>,
                 query: string -> seq<Handle>, engine: Engine): (d: seq<Element>)
    requires WellFormed(dom) && QueryOk(query, |dom|)
    ensures SameTree(dom, d) && WellFormed(d)
  {
    if elementData.None? then dom else ApplyChanges(dom, elementData.value, query, engine)
  }
}
