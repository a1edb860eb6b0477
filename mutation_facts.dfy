/** What applying a variation does to the page, element by element. */
module MutationFacts {
  import opened Wrappers
  import opened Dom
  import opened Records
  import opened Mutation

  /** Handling a matched element twice is handling it once. */
  lemma TouchTwice(e: Element, c: Change, engine: Engine)
    ensures Touch(Touch(e, c, engine), c, engine) == Touch(e, c, engine)
  {
  }

  /** Away from VIDEO reloads, a change handled for handles `hs` touches exactly the
      elements in `hs`, each as if on its own, and leaves every other element as it was. */
  lemma {:induction false} StepAllPointwise(dom: seq<Element>, hs: seq<Handle>, c: Change,
                                            engine: Engine)
    requires WellFormed(dom) && InRange(hs, |dom|)
    requires forall i :: 0 <= i < |hs| ==> !Reloads(dom[hs[i]].tag, c, engine)
    ensures var d := StepAll(dom, hs, c, engine);
      forall k :: 0 <= k < |dom| ==> d[k] == if k in hs then Touch(dom[k], c, engine) else dom[k]
    decreases |hs|
  {
    if hs != [] {
      var hs' := hs[..|hs| - 1];
      var h := hs[|hs| - 1];
      StepAllPointwise(dom, hs', c, engine);
      var d0 := StepAll(dom, hs', c, engine);
      assert ShapeOf(d0[h]) == ShapeOf(dom[h]);
      var d := Step(d0, h, c, engine);
      assert d == d0[h := Touch(d0[h], c, engine)];
      forall k | 0 <= k < |dom|
        ensures d[k] == if k in hs then Touch(dom[k], c, engine) else dom[k]
      {
        assert k in hs <==> k in hs' || k == h;
        if k == h && k in hs' {
          TouchTwice(dom[k], c, engine);
        }
      }
    }
  }

  /** A change that cannot reload a video changes exactly the elements its selector matches. */
  lemma ChangeIsPointwise(dom: seq<Element>, c: Change, query: string -> seq<Handle>, engine: Engine)
    requires WellFormed(dom) && QueryOk(query, |dom|)
    requires !(Modifies(c, engine) && c.kind == VideoKind)
    ensures var d := ApplyChange(dom, c, query, engine);
      forall k :: 0 <= k < |dom| ==>
        d[k] == if k in query(c.selector) then Touch(dom[k], c, engine) else dom[k]
  {
    StepAllPointwise(dom, query(c.selector), c, engine);
  }

  /** 'hide' sets opacity '0.3' on every matched element and changes nothing else. */
  lemma HideFadesMatches(dom: seq<Element>, c: Change, query: string -> seq<Handle>, engine: Engine)
    requires WellFormed(dom) && QueryOk(query, |dom|)
    requires c.action == Hide && engine != Replay
    ensures var d := ApplyChange(dom, c, query, engine);
      forall k :: 0 <= k < |dom| ==>
        d[k] == if k in query(c.selector) then dom[k].(opacity := Faded) else dom[k]
  {
    ChangeIsPointwise(dom, c, query, engine);
  }

  /** Live, 'show' sets opacity '1.0' on every matched element and changes nothing else. */
  lemma ShowRevealsMatches(dom: seq<Element>, c: Change, query: string -> seq<Handle>, engine: Engine)
    requires WellFormed(dom) && QueryOk(query, |dom|)
    requires c.action == Show && engine != Replay
    ensures var d := ApplyChange(dom, c, query, engine);
      forall k :: 0 <= k < |dom| ==>
        d[k] == if k in query(c.selector) then dom[k].(opacity := Opaque) else dom[k]
  {
    ChangeIsPointwise(dom, c, query, engine);
  }

  /** The replay fades hidden elements the same way and also marks them selected. */
  lemma ReplayHideFadesAndMarks(dom: seq<Element>, c: Change, query: string -> seq<Handle>)
    requires WellFormed(dom) && QueryOk(query, |dom|)
    requires c.action == Hide
    ensures var d := ApplyChange(dom, c, query, Replay);
      forall k :: 0 <= k < |dom| ==>
        d[k] == if k in query(c.selector) then Mark(dom[k].(opacity := Faded)) else dom[k]
  {
    ChangeIsPointwise(dom, c, query, Replay);
  }

  /** A text change sets `textContent` on headings and `innerHTML` on every other matched
      element, and changes nothing else. */
  lemma TextChangeSetsContent(dom: seq<Element>, c: Change, query: string -> seq<Handle>, engine: Engine)
    requires WellFormed(dom) && QueryOk(query, |dom|)
    requires Modifies(c, engine) && c.kind == TextKind && engine != Replay
    ensures var d := ApplyChange(dom, c, query, engine);
      forall k :: 0 <= k < |dom| ==>
        d[k] == if k !in query(c.selector) then dom[k]
                else if IsHeading(dom[k].tag) then dom[k].(content := PlainText(NullableDomString(c.newContent)))
                else dom[k].(content := Markup(DomString(c.newContent)))
  {
    ChangeIsPointwise(dom, c, query, engine);
  }

  /** An image change sets `src` on matched IMG elements only. */
  lemma ImageChangeOnlyOnImg(dom: seq<Element>, c: Change, query: string -> seq<Handle>, engine: Engine)
    requires WellFormed(dom) && QueryOk(query, |dom|)
    requires Modifies(c, engine) && c.kind == ImageKind && engine != Replay
    ensures var d := ApplyChange(dom, c, query, engine);
      forall k :: 0 <= k < |dom| ==>
        d[k] == if k in query(c.selector) && dom[k].tag == "IMG"
                then dom[k].(src := DomString(c.newContent)) else dom[k]
  {
    ChangeIsPointwise(dom, c, query, engine);
  }

  /** A modify change of any other type leaves the page as it was on the live page. */
  lemma UnsupportedTypeChangesNothing(dom: seq<Element>, c: Change, query: string -> seq<Handle>)
    requires WellFormed(dom) && QueryOk(query, |dom|)
    requires Modifies(c, Serving)
    requires c.kind !in {TextKind, ImageKind, VideoKind, IframeKind}
    ensures ApplyChange(dom, c, query, Serving) == dom
    ensures ApplyChange(dom, c, query, ServingAsWritten) == dom
  {
    ChangeIsPointwise(dom, c, query, Serving);
    ChangeIsPointwise(dom, c, query, ServingAsWritten);
  }

  predicate Increasing(hs: seq<Handle>) {
    forall i, j :: 0 <= i < j < |hs| ==> hs[i] < hs[j]
  }

  /** Whether a video change handled for `hs` sets the `src` of element k: k is a matched
      IFRAME, a matched VIDEO without a `<source>`, or the first `<source>` of a matched VIDEO. */
  predicate VideoSetsSrc(dom: seq<Element>, hs: seq<Handle>, k: Handle)
    requires InRange(hs, |dom|) && k < |dom|
  {
    || (k in hs && (dom[k].tag == "IFRAME" || (dom[k].tag == "VIDEO" && dom[k].firstSource.None?)))
    || exists i :: 0 <= i < |hs| && dom[hs[i]].tag == "VIDEO" && dom[hs[i]].firstSource == Some(k)
  }

  /** The elements one video step sets the `src` of. */
  predicate StepSetsSrc(dom: seq<Element>, h: Handle, k: Handle)
    requires h < |dom| && k < |dom|
  {
    || (k == h && (dom[k].tag == "IFRAME" || (dom[k].tag == "VIDEO" && dom[k].firstSource.None?)))
    || (dom[h].tag == "VIDEO" && dom[h].firstSource == Some(k))
  }

  /** A video change, live, handled for one element. */
  lemma StepVideo(dom: seq<Element>, h: Handle, c: Change, engine: Engine)
    requires WellFormed(dom) && h < |dom|
    requires engine != Replay && Modifies(c, engine) && c.kind == VideoKind
    ensures var d := Step(dom, h, c, engine);
      forall k :: 0 <= k < |dom| ==>
        && d[k].loads == dom[k].loads + (if k == h && dom[k].tag == "VIDEO" then 1 else 0)
        && d[k].src == (if StepSetsSrc(dom, h, k) then DomString(c.newContent) else dom[k].src)
        && d[k].(src := dom[k].src, loads := dom[k].loads) == dom[k]
  {
    assert NodeOk(dom, h);
  }

  lemma VideoSetsSrcSnoc(dom: seq<Element>, hs: seq<Handle>, k: Handle)
    requires InRange(hs, |dom|) && hs != [] && k < |dom|
    ensures VideoSetsSrc(dom, hs, k) <==>
      VideoSetsSrc(dom, hs[..|hs| - 1], k) || StepSetsSrc(dom, hs[|hs| - 1], k)
  {
    var hs', h := hs[..|hs| - 1], hs[|hs| - 1];
    assert hs == hs' + [h];
    if VideoSetsSrc(dom, hs, k) && !(k in hs && (dom[k].tag == "IFRAME" || (dom[k].tag == "VIDEO" && dom[k].firstSource.None?))) {
      var i :| 0 <= i < |hs| && dom[hs[i]].tag == "VIDEO" && dom[hs[i]].firstSource == Some(k);
      if i < |hs'| {
        assert hs'[i] == hs[i];
      }
    }
    if VideoSetsSrc(dom, hs', k) && !(k in hs' && (dom[k].tag == "IFRAME" || (dom[k].tag == "VIDEO" && dom[k].firstSource.None?))) {
      var i :| 0 <= i < |hs'| && dom[hs'[i]].tag == "VIDEO" && dom[hs'[i]].firstSource == Some(k);
      assert hs[i] == hs'[i];
    }
  }

  /** A video change, live: sources and IFRAMEs get the new `src`, every matched VIDEO is
      reloaded once, and nothing else changes. */
  lemma {:induction false} StepAllVideo(dom: seq<Element>, hs: seq<Handle>, c: Change, engine: Engine)
    requires WellFormed(dom) && InRange(hs, |dom|) && Increasing(hs)
    requires engine != Replay && Modifies(c, engine) && c.kind == VideoKind
    ensures var d := StepAll(dom, hs, c, engine);
      forall k :: 0 <= k < |dom| ==>
        && d[k].loads == dom[k].loads + (if k in hs && dom[k].tag == "VIDEO" then 1 else 0)
        && d[k].src == (if VideoSetsSrc(dom, hs, k) then DomString(c.newContent) else dom[k].src)
        && d[k].(src := dom[k].src, loads := dom[k].loads) == dom[k]
    decreases |hs|
  {
    if hs != [] {
      var hs' := hs[..|hs| - 1];
      var h := hs[|hs| - 1];
      StepAllVideo(dom, hs', c, engine);
      var d0 := StepAll(dom, hs', c, engine);
      StepVideo(d0, h, c, engine);
      assert h !in hs';
      forall k | 0 <= k < |dom|
        ensures StepSetsSrc(d0, h, k) == StepSetsSrc(dom, h, k)
        ensures k in hs <==> k in hs' || k == h
        ensures VideoSetsSrc(dom, hs, k) <==> VideoSetsSrc(dom, hs', k) || StepSetsSrc(dom, h, k)
      {
        assert ShapeOf(d0[h]) == ShapeOf(dom[h]);
        assert ShapeOf(d0[k]) == ShapeOf(dom[k]);
        VideoSetsSrcSnoc(dom, hs, k);
      }
    }
  }

  /** A video change applied live, as seen from the whole page. */
  lemma VideoChangeEffect(dom: seq<Element>, c: Change, query: string -> seq<Handle>, engine: Engine)
    requires WellFormed(dom) && QueryOk(query, |dom|)
    requires engine != Replay && Modifies(c, engine) && c.kind == VideoKind
    ensures var d := ApplyChange(dom, c, query, engine); var hs := query(c.selector);
      forall k :: 0 <= k < |dom| ==>
        && d[k].loads == dom[k].loads + (if k in hs && dom[k].tag == "VIDEO" then 1 else 0)
        && d[k].src == (if VideoSetsSrc(dom, hs, k) then DomString(c.newContent) else dom[k].src)
        && d[k].(src := dom[k].src, loads := dom[k].loads) == dom[k]
  {
    StepAllVideo(dom, query(c.selector), c, engine);
  }

  /** Classes are only ever added: every class of an element in `a` is still there in `b`. */
  predicate ClassesKept(a: seq<Element>, b: seq<Element>) {
    |a| == |b| && forall k, x :: 0 <= k < |a| && x in a[k].classes ==> x in b[k].classes
  }

  lemma StepReplayClasses(dom: seq<Element>, h: Handle, c: Change)
    requires WellFormed(dom) && h < |dom|
    ensures var d := Step(dom, h, c, Replay);
      ClassesKept(dom, d) && SelectedMark in d[h].classes
  {
    var d := Step(dom, h, c, Replay);
    assert NodeOk(dom, h);
    assert forall k :: 0 <= k < |dom| ==>
      d[k].classes == if k == h then AddClass(dom[k].classes, SelectedMark) else dom[k].classes;
  }

  lemma ClassesKeptTrans(a: seq<Element>, b: seq<Element>, c: seq<Element>)
    requires ClassesKept(a, b) && ClassesKept(b, c)
    ensures ClassesKept(a, c)
  {
  }

  lemma {:induction false} StepAllReplayMarks(dom: seq<Element>, hs: seq<Handle>, c: Change)
    requires WellFormed(dom) && InRange(hs, |dom|)
    ensures var d := StepAll(dom, hs, c, Replay);
      && ClassesKept(dom, d)
      && forall i :: 0 <= i < |hs| ==> SelectedMark in d[hs[i]].classes
    decreases |hs|
  {
    if hs != [] {
      var hs' := hs[..|hs| - 1];
      StepAllReplayMarks(dom, hs', c);
      var d0 := StepAll(dom, hs', c, Replay);
      var h := hs[|hs| - 1];
      var d := Step(d0, h, c, Replay);
      StepReplayClasses(d0, h, c);
      ClassesKeptTrans(dom, d0, d);
      forall i | 0 <= i < |hs| ensures SelectedMark in d[hs[i]].classes {
        if i < |hs'| {
          assert hs'[i] == hs[i];
          assert SelectedMark in d0[hs[i]].classes;
        }
      }
    }
  }

  /** The design-mode replay marks every element that any change of the variation matches
      with class 'ab-optimizer-selected', and removes no class. */
  lemma {:induction false} ReplayMarksEveryMatch(dom: seq<Element>, cs: seq<Change>,
                                                 query: string -> seq<Handle>)
    requires WellFormed(dom) && QueryOk(query, |dom|)
    ensures var d := ApplyChanges(dom, cs, query, Replay);
      && ClassesKept(dom, d)
      && forall i, j :: 0 <= i < |cs| && 0 <= j < |query(cs[i].selector)| ==>
           SelectedMark in d[query(cs[i].selector)[j]].classes
    decreases |cs|
  {
    if cs != [] {
      var cs' := cs[..|cs| - 1];
      ReplayMarksEveryMatch(dom, cs', query);
      var d0 := ApplyChanges(dom, cs', query, Replay);
      var c := cs[|cs| - 1];
      StepAllReplayMarks(d0, query(c.selector), c);
      var d := ApplyChanges(dom, cs, query, Replay);
      forall i, j | 0 <= i < |cs| && 0 <= j < |query(cs[i].selector)|
        ensures SelectedMark in d[query(cs[i].selector)[j]].classes
      {
        if i < |cs'| {
          assert cs'[i] == cs[i];
        }
      }
    }
  }

  /** Whether two pages agree on everything but the class lists. */
  predicate SameButClasses(a: seq<Element>, b: seq<Element>) {
    |a| == |b| && forall k :: 0 <= k < |a| ==> a[k].(classes := []) == b[k].(classes := [])
  }

  /** The live engines and the replay take the same branch for a change: it is not a 'show'
      and, for the switch as written, not an 'iframe' change either. */
  predicate ReplayLike(c: Change, engine: Engine) {
    c.action != Show && (engine == ServingAsWritten ==> c.kind != IframeKind)
  }

  lemma StepAgrees(a: seq<Element>, b: seq<Element>, h: Handle, c: Change, engine: Engine)
    requires WellFormed(a) && WellFormed(b) && h < |a| && SameButClasses(a, b)
    requires engine != Replay && ReplayLike(c, engine)
    ensures SameButClasses(Step(a, h, c, engine), Step(b, h, c, Replay))
  {
    assert a[h].(classes := []) == b[h].(classes := []);
    assert a[h].tag == b[h].tag && a[h].firstSource == b[h].firstSource;
    assert NodeOk(a, h);
    var url := DomString(c.newContent);
    var da := if Reloads(a[h].tag, c, engine) then Reload(a, h, url)
              else a[h := ElementEffect(a[h], c, engine)];
    var db := if Reloads(b[h].tag, c, Replay) then Reload(b, h, url)
              else b[h := ElementEffect(b[h], c, Replay)];
    if Reloads(a[h].tag, c, engine) {
      ReloadAgrees(a, b, h, url);
    } else {
      EffectAgrees(a[h], b[h], c, engine);
    }
    assert SameButClasses(da, db);
  }

  lemma ReloadAgrees(a: seq<Element>, b: seq<Element>, h: Handle, url: string)
    requires WellFormed(a) && WellFormed(b) && h < |a| && SameButClasses(a, b)
    requires a[h].firstSource == b[h].firstSource
    ensures SameButClasses(Reload(a, h, url), Reload(b, h, url))
  {
    assert NodeOk(a, h);
    assert a[h].(classes := []) == b[h].(classes := []);
  }

  lemma EffectAgrees(e: Element, f: Element, c: Change, engine: Engine)
    requires e.(classes := []) == f.(classes := []) && engine != Replay && ReplayLike(c, engine)
    ensures ElementEffect(e, c, engine).(classes := []) == ElementEffect(f, c, Replay).(classes := [])
  {
    assert e.tag == f.tag;
  }

  lemma {:induction false} StepAllAgrees(a: seq<Element>, b: seq<Element>, hs: seq<Handle>,
                                         c: Change, engine: Engine)
    requires WellFormed(a) && WellFormed(b) && InRange(hs, |a|) && SameButClasses(a, b)
    requires engine != Replay && ReplayLike(c, engine)
    ensures SameButClasses(StepAll(a, hs, c, engine), StepAll(b, hs, c, Replay))
    decreases |hs|
  {
    if hs != [] {
      var hs' := hs[..|hs| - 1];
      StepAllAgrees(a, b, hs', c, engine);
      StepAgrees(StepAll(a, hs', c, engine), StepAll(b, hs', c, Replay), hs[|hs| - 1], c, engine);
    }
  }

  /** A live client and the design-mode replay leave the page in the same state, class lists
      aside, for every variation without a 'show' change ('show' is the one action the replay
      treats as a modification) and, for the live switch as written, without an 'iframe'
      change (which only the replay and the corrected engine apply). */
  lemma {:induction false} ServingAgreesWithReplay(dom: seq<Element>, cs: seq<Change>,
                                                   query: string -> seq<Handle>, engine: Engine)
    requires WellFormed(dom) && QueryOk(query, |dom|)
    requires engine != Replay && forall i :: 0 <= i < |cs| ==> ReplayLike(cs[i], engine)
    ensures SameButClasses(ApplyChanges(dom, cs, query, engine), ApplyChanges(dom, cs, query, Replay))
    decreases |cs|
  {
    if cs != [] {
      var cs' := cs[..|cs| - 1];
      ServingAgreesWithReplay(dom, cs', query, engine);
      var a := ApplyChanges(dom, cs', query, engine);
      var b := ApplyChanges(dom, cs', query, Replay);
      var c := cs[|cs| - 1];
      StepAllAgrees(a, b, query(c.selector), c, engine);
    }
  }

  /** The live client, as written or corrected, never touches class lists. */
  lemma {:induction false} ServingKeepsClasses(dom: seq<Element>, cs: seq<Change>,
                                               query: string -> seq<Handle>, engine: Engine)
    requires WellFormed(dom) && QueryOk(query, |dom|) && engine != Replay
    ensures var d := ApplyChanges(dom, cs, query, engine);
      forall k :: 0 <= k < |dom| ==> d[k].classes == dom[k].classes
    decreases |cs|
  {
    if cs != [] {
      var cs' := cs[..|cs| - 1];
      ServingKeepsClasses(dom, cs', query, engine);
      var d0 := ApplyChanges(dom, cs', query, engine);
      StepAllKeepsClasses(d0, query(cs[|cs| - 1].selector), cs[|cs| - 1], engine);
    }
  }

  lemma {:induction false} StepAllKeepsClasses(dom: seq<Element>, hs: seq<Handle>, c: Change,
                                               engine: Engine)
    requires WellFormed(dom) && InRange(hs, |dom|) && engine != Replay
    ensures var d := StepAll(dom, hs, c, engine);
      forall k :: 0 <= k < |dom| ==> d[k].classes == dom[k].classes
    decreases |hs|
  {
    if hs != [] {
      StepAllKeepsClasses(dom, hs[..|hs| - 1], c, engine);
      assert NodeOk(StepAll(dom, hs[..|hs| - 1], c, engine), hs[|hs| - 1]);
    }
  }

  /** As written, the live client ignores an 'iframe' change: the page stays as it was. */
  lemma IframeIgnoredAsWritten(dom: seq<Element>, c: Change, query: string -> seq<Handle>)
    requires WellFormed(dom) && QueryOk(query, |dom|)
    requires Modifies(c, ServingAsWritten) && c.kind == IframeKind
    ensures ApplyChange(dom, c, query, ServingAsWritten) == dom
  {
    ChangeIsPointwise(dom, c, query, ServingAsWritten);
  }

  /** With 'iframe' changes honoured, the live client sets `src` on matched IFRAMEs only, as
      the design-mode editor and replay do. */
  lemma IframeChangeSetsSrc(dom: seq<Element>, c: Change, query: string -> seq<Handle>)
    requires WellFormed(dom) && QueryOk(query, |dom|)
    requires Modifies(c, Serving) && c.kind == IframeKind
    ensures var d := ApplyChange(dom, c, query, Serving);
      forall k :: 0 <= k < |dom| ==>
        d[k] == if k in query(c.selector) && dom[k].tag == "IFRAME"
                then dom[k].(src := DomString(c.newContent)) else dom[k]
  {
    ChangeIsPointwise(dom, c, query, Serving);
  }

  /** An IFRAME edited in design mode: the replay shows the new address, the live client as
      written keeps the old one. */
  lemma IframeEditLostLive()
    ensures var dom := [Element("IFRAME", "", [], None, None, None, "", Markup(""), "a.html", 0)];
      var query := (sel: string) => [0];
      var c := Change("iframe", Modify, IframeKind, Some("b.html"), Some("a.html"));
      && WellFormed(dom) && QueryOk(query, |dom|)
      && ApplyChange(dom, c, query, ServingAsWritten)[0].src == "a.html"
      && ApplyChange(dom, c, query, Serving)[0].src == "b.html"
      && ApplyChange(dom, c, query, Replay)[0].src == "b.html"
  {
    var dom := [Element("IFRAME", "", [], None, None, None, "", Markup(""), "a.html", 0)];
    var query := (sel: string) => [0];
    var c := Change("iframe", Modify, IframeKind, Some("b.html"), Some("a.html"));
    assert NodeOk(dom, 0);
    assert [0][..0] == [];
  }

  /** Any action the modify branch takes acts exactly like 'modify' (a missing or unknown
      action live, and also 'show' in the replay). */
  lemma {:induction false} ModifyIsTheDefault(dom: seq<Element>, hs: seq<Handle>, c: Change,
                                              engine: Engine)
    requires WellFormed(dom) && InRange(hs, |dom|) && Modifies(c, engine)
    ensures StepAll(dom, hs, c, engine) == StepAll(dom, hs, c.(action := Modify), engine)
    decreases |hs|
  {
    if hs != [] {
      var hs' := hs[..|hs| - 1];
      ModifyIsTheDefault(dom, hs', c, engine);
      StepModify(StepAll(dom, hs', c, engine), hs[|hs| - 1], c, engine);
    }
  }

  lemma StepModify(dom: seq<Element>, h: Handle, c: Change, engine: Engine)
    requires WellFormed(dom) && h < |dom| && Modifies(c, engine)
    ensures Step(dom, h, c, engine) == Step(dom, h, c.(action := Modify), engine)
  {
    var m := c.(action := Modify);
    assert Modifies(m, engine) && m.action != Hide;
    assert ElementEffect(dom[h], c, engine) == ElementEffect(dom[h], m, engine);
  }

  /** A variation none of whose selectors matches anything leaves the page as it was. */
  lemma {:induction false} UnmatchedVariationChangesNothing(dom: seq<Element>, cs: seq<Change>,
                                                            query: string -> seq<Handle>, engine: Engine)
    requires WellFormed(dom) && QueryOk(query, |dom|)
    requires forall i :: 0 <= i < |cs| ==> query(cs[i].selector) == []
    ensures ApplyChanges(dom, cs, query, engine) == dom
    decreases |cs|
  {
    if cs != [] {
      UnmatchedVariationChangesNothing(dom, cs[..|cs| - 1], query, engine);
      assert query(cs[|cs| - 1].selector) == [];
    }
  }
}
