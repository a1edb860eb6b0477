/**
 * The client as it runs in a page: the page itself, the events it has tracked and, in
 * design mode, the editor's list of selected elements. Selector matching (`querySelectorAll`)
 * is fixed for the page.
 */
module Client {
  import opened Wrappers
  import opened Dom
  import opened Records
  import opened Mutation
  import opened Traffic
  import opened Editor

  /** The opacity a removed 'hide' entry restores. */
  const Restored := "1"

  /** `variations.find(v => v.id === id)`, as an index. */
  function FindVariation(vs: seq<Variation>, id: Id): (r: Option<nat>)
    ensures r.Some? ==> r.value < |vs| && vs[r.value].id == id
    ensures r.Some? ==> forall j :: 0 <= j < r.value ==> vs[j].id != id
    ensures r.None? ==> forall j :: 0 <= j < |vs| ==> vs[j].id != id
    decreases |vs|
  {
    if vs == [] then None
    else if vs[0].id == id then Some(0)
    else
      var rest := FindVariation(vs[1..], id);
      if rest.Some? then
        assert forall j :: 1 <= j < rest.value + 1 ==> vs[j] == vs[1..][j - 1];
        Some(rest.value + 1)
      else
        assert forall j :: 1 <= j < |vs| ==> vs[j] == vs[1..][j - 1];
        None
  }

  /** The variation an experiment shows: the first whose id strictly equals its
      `selectedVariation`; none when the experiment or its variations are missing. */
  function ChosenVariation(experiment: Option<ExperimentData>): Option<Variation> {
    if experiment.None? || experiment.value.variations.None? then None
    else
      var vs := experiment.value.variations.value;
      match FindVariation(vs, experiment.value.selectedVariation)
      case Some(i) => Some(vs[i])
      case None => None
  }

  /** The three cases in which an experiment shows nothing, and what it shows otherwise. */
  lemma ChosenVariationMeaning(experiment: Option<ExperimentData>)
    ensures ChosenVariation(experiment).None? <==>
      || experiment.None?
      || experiment.value.variations.None?
      || forall v :: v in experiment.value.variations.value ==> v.id != experiment.value.selectedVariation
    ensures ChosenVariation(experiment).Some? ==>
      && ChosenVariation(experiment).value in experiment.value.variations.value
      && ChosenVariation(experiment).value.id == experiment.value.selectedVariation
  {
    if experiment.Some? && experiment.value.variations.Some? {
      var vs := experiment.value.variations.value;
      var r := FindVariation(vs, experiment.value.selectedVariation);
      if r.None? {
        forall v | v in vs ensures v.id != experiment.value.selectedVariation {
          var j :| 0 <= j < |vs| && vs[j] == v;
        }
      }
    }
  }

  /** What a live page ends up showing for a traffic draw: the variation of the experiment
      the draw selected whose id is the allocation entry's id. */
  lemma ServedVariationMatchesAllocation(xs: seq<ExperimentData>, r: real)
    requires Decision(Some(xs), r).Some?
    ensures var sel := Decision(Some(xs), r).value;
      var slot := Slots(xs)[FirstHit(Slots(xs), r).value];
      var chosen := ChosenVariation(Some(sel.experiment));
      && (chosen.Some? ==> chosen.value.id == slot.variation.id && !slot.variation.isControl)
      && (chosen.Some? ==> slot.experiment.variations.Some? && chosen.value in slot.experiment.variations.value)
      && (chosen.None? <==>
            || slot.experiment.variations.None?
            || forall v :: v in slot.experiment.variations.value ==> v.id != slot.variation.id)
  {
    DecisionMeaning(xs, r);
    ChosenVariationMeaning(Some(Decision(Some(xs), r).value.experiment));
  }

  /** Removing a selected entry from the page: the first element its selector matches loses
      the selected mark, and regains opacity '1' when the entry hid it. */
  function Deselect(dom: seq<Element>, entry: EditorEntry, query: string -> seq<Handle>): (d: seq<Element>)
    requires WellFormed(dom) && QueryOk(query, |dom|)
    ensures SameTree(dom, d) && WellFormed(d)
    ensures forall k :: 0 <= k < |dom| && (query(entry.selector) == [] || k != query(entry.selector)[0]) ==>
      d[k] == dom[k]
    ensures query(entry.selector) != [] ==>
      var h := query(entry.selector)[0];
      && (forall x :: x in d[h].classes <==> x in dom[h].classes && x != SelectedMark)
      && d[h].opacity == (if entry.action == Hide then Restored else dom[h].opacity)
      && d[h].(classes := dom[h].classes, opacity := dom[h].opacity) == dom[h]
  {
    var hs := query(entry.selector);
    if hs == [] then dom
    else
      var h := hs[0];
      var e := dom[h].(classes := RemoveClass(dom[h].classes, SelectedMark));
      var d := dom[h := if entry.action == Hide then e.(opacity := Restored) else e];
      SameTreeKeepsWellFormed(dom, d);
      d
  }

  class Optimizer {
    var dom: seq<Element>
    var events: seq<Event>
    var selected: seq<EditorEntry>
    const query: string -> seq<Handle>

    ghost predicate Valid()
      reads this
    {
      WellFormed(dom) && QueryOk(query, |dom|)
    }

    constructor(page: seq<Element>, query: string -> seq<Handle>)
      requires WellFormed(page) && QueryOk(query, |page|)
      ensures Valid()
      ensures dom == page && this.query == query && events == [] && selected == []
    {
      dom := page;
      this.query := query;
      events := [];
      selected := [];
    }

    /** `trackEvent`: the event is recorded (sending it is left to the network). */
    method TrackEvent(expId: Id, eventType: string)
      modifies this
      ensures dom == old(dom) && selected == old(selected)
      ensures events == old(events) + [Event(expId, eventType)]
    {
      events := events + [Event(expId, eventType)];
    }

    /** The body of the live `switch` for one matched element. */
    method ApplyToElement(h: Handle, change: Change)
      requires Valid() && h < |dom|
      modifies this
      ensures Valid()
      ensures dom == Step(old(dom), h, change, ServingAsWritten)
      ensures events == old(events) && selected == old(selected)
    {
      var element := dom[h];
      var url := DomString(change.newContent);
      if change.action == Hide {
        dom := dom[h := element.(opacity := Faded)];
      } else if change.action == Show {
        dom := dom[h := element.(opacity := Opaque)];
      } else if change.kind == TextKind {
        if IsHeading(element.tag) {
          dom := dom[h := element.(content := PlainText(NullableDomString(change.newContent)))];
        } else {
          dom := dom[h := element.(content := Markup(url))];
        }
      } else if change.kind == ImageKind && element.tag == "IMG" {
        dom := dom[h := element.(src := url)];
      } else if change.kind == VideoKind && (element.tag == "VIDEO" || element.tag == "IFRAME") {
        if element.tag == "VIDEO" {
          assert NodeOk(dom, h);
          if element.firstSource.Some? {
            var source := element.firstSource.value;
            dom := dom[source := dom[source].(src := url)];
          } else {
            dom := dom[h := dom[h].(src := url)];
          }
          dom := dom[h := dom[h].(loads := dom[h].loads + 1)];
        } else if element.tag == "IFRAME" {
          dom := dom[h := element.(src := url)];
        }
      }
      assert dom == Step(old(dom), h, change, ServingAsWritten);
    }

    /** `applyVariationContent`: every change, in order, to every element its selector
        matches, in document order. */
    method ApplyVariationContent(elementData: Option<seq<Change>>)
      requires Valid()
      modifies this
      ensures Valid()
      ensures dom == Apply(old(dom), elementData, query, ServingAsWritten)
      ensures events == old(events) && selected == old(selected)
    {
      if elementData.None? || |elementData.value| == 0 {
        return;
      }
      var changes := elementData.value;
      var i := 0;
      while i < |changes|
        invariant 0 <= i <= |changes|
        invariant Valid()
        invariant dom == ApplyChanges(old(dom), changes[..i], query, ServingAsWritten)
        invariant events == old(events) && selected == old(selected)
      {
        assert changes[..i + 1][..i] == changes[..i];
        ApplyChangeToMatches(changes[i]);
        i := i + 1;
      }
      assert changes[..i] == changes;
    }

    /** One change of `applyVariationContent`, to every element its selector matches. */
    method ApplyChangeToMatches(change: Change)
      requires Valid()
      modifies this
      ensures Valid()
      ensures dom == ApplyChange(old(dom), change, query, ServingAsWritten)
      ensures events == old(events) && selected == old(selected)
    {
      var elements := query(change.selector);
      var j := 0;
      while j < |elements|
        invariant 0 <= j <= |elements|
        invariant Valid() && |dom| == |old(dom)|
        invariant dom == StepAll(old(dom), elements[..j], change, ServingAsWritten)
        invariant events == old(events) && selected == old(selected)
      {
        assert elements[..j + 1][..j] == elements[..j];
        ApplyToElement(elements[j], change);
        j := j + 1;
      }
      assert elements[..j] == elements;
    }

    /** The body of the design-mode replay for one matched element. */
    method ReplayOnElement(h: Handle, item: Change)
      requires Valid() && h < |dom|
      modifies this
      ensures Valid()
      ensures dom == Step(old(dom), h, item, Replay)
      ensures events == old(events) && selected == old(selected)
    {
      var element := dom[h];
      var url := DomString(item.newContent);
      if item.action == Hide {
        dom := dom[h := element.(opacity := Faded)];
      } else {
        if item.kind == TextKind {
          if IsHeading(element.tag) {
            dom := dom[h := element.(content := PlainText(NullableDomString(item.newContent)))];
          } else {
            dom := dom[h := element.(content := Markup(url))];
          }
        } else if item.kind == ImageKind && element.tag == "IMG" {
          dom := dom[h := element.(src := url)];
        } else if item.kind == VideoKind {
          if element.tag == "VIDEO" {
            assert NodeOk(dom, h);
            if element.firstSource.Some? {
              var source := element.firstSource.value;
              dom := dom[source := dom[source].(src := url)];
            } else {
              dom := dom[h := dom[h].(src := url)];
            }
            dom := dom[h := dom[h].(loads := dom[h].loads + 1)];
          } else if element.tag == "IFRAME" {
            dom := dom[h := element.(src := url)];
          }
        } else if item.kind == IframeKind && element.tag == "IFRAME" {
          dom := dom[h := element.(src := url)];
        }
      }
      assert dom == if Reloads(element.tag, item, Replay) then Reload(old(dom), h, url)
                    else old(dom)[h := ElementEffect(element, item, Replay)];
      dom := dom[h := Mark(dom[h])];
      assert dom == Step(old(dom), h, item, Replay);
    }

    /** `applyExistingVariation`: design mode re-applies a stored variation and marks every
        element it touches as selected. */
    method ApplyExistingVariation(variation: Option<Variation>)
      requires Valid()
      modifies this
      ensures Valid()
      ensures dom == if variation.None? then old(dom)
                     else Apply(old(dom), variation.value.elementData, query, Replay)
      ensures events == old(events) && selected == old(selected)
    {
      if variation.None? || variation.value.elementData.None? {
        return;
      }
      var items := variation.value.elementData.value;
      var i := 0;
      while i < |items|
        invariant 0 <= i <= |items|
        invariant Valid()
        invariant dom == ApplyChanges(old(dom), items[..i], query, Replay)
        invariant events == old(events) && selected == old(selected)
      {
        assert items[..i + 1][..i] == items[..i];
        ReplayItem(items[i]);
        i := i + 1;
      }
      assert items[..i] == items;
    }

    /** One stored change of the replay, to every element its selector matches. */
    method ReplayItem(item: Change)
      requires Valid()
      modifies this
      ensures Valid()
      ensures dom == ApplyChange(old(dom), item, query, Replay)
      ensures events == old(events) && selected == old(selected)
    {
      var elements := query(item.selector);
      var j := 0;
      while j < |elements|
        invariant 0 <= j <= |elements|
        invariant Valid() && |dom| == |old(dom)|
        invariant dom == StepAll(old(dom), elements[..j], item, Replay)
        invariant events == old(events) && selected == old(selected)
      {
        assert elements[..j + 1][..j] == elements[..j];
        ReplayOnElement(elements[j], item);
        j := j + 1;
      }
      assert elements[..j] == elements;
    }

    /** `applyExperimentChanges`: shows the experiment's selected variation and records one
        impression; does nothing at all when there is no such variation. */
    method ApplyExperimentChanges(experiment: Option<ExperimentData>, expId: Id)
      requires Valid()
      modifies this
      ensures Valid()
      ensures var chosen := ChosenVariation(experiment);
        && dom == (if chosen.Some? then Apply(old(dom), chosen.value.elementData, query, ServingAsWritten)
                   else old(dom))
        && events == old(events) + (if chosen.Some? then [Event(expId, Impression)] else [])
      ensures selected == old(selected)
    {
      if experiment.None? {
        return;
      }
      var variationId := experiment.value.selectedVariation;
      var variations := experiment.value.variations;
      if variations.None? {
        return;
      }
      var found := FindVariation(variations.value, variationId);
      if found.None? {
        return;
      }
      var selectedVariation := variations.value[found.value];
      ApplyVariationContent(selectedVariation.elementData);
      TrackEvent(expId, Impression);
    }

    /** The active-experiments path of a page load: with a non-empty list, the traffic
        selector's choice (for the draw `r`) is shown under its experiment's id. */
    method ServeActiveExperiments(experiments: Option<seq<ExperimentData>>, r: real)
      requires Valid()
      modifies this
      ensures Valid()
      ensures var d := Decision(experiments, r);
        var chosen := if d.Some? then ChosenVariation(Some(d.value.experiment)) else None;
        && dom == (if chosen.Some? then Apply(old(dom), chosen.value.elementData, query, ServingAsWritten)
                   else old(dom))
        && events == old(events) + (if chosen.Some? then [Event(d.value.id, Impression)] else [])
      ensures selected == old(selected)
    {
      if experiments.Some? && |experiments.value| > 0 {
        var selectedExperiment := SelectExperimentByTraffic(experiments, r);
        if selectedExperiment.Some? {
          ApplyExperimentChanges(Some(selectedExperiment.value.experiment), selectedExperiment.value.id);
        }
      }
    }

    /** Opening a stored variation in the editor: its changes become the selected-elements
        list, each with its replacement under `content` (see `EntriesAsWritten`). */
    method LoadSelection(elementData: Option<seq<Change>>)
      modifies this
      ensures dom == old(dom) && events == old(events)
      ensures elementData.None? ==> selected == old(selected)
      ensures elementData.Some? ==> selected == EntriesAsWritten(elementData.value)
    {
      if elementData.Some? {
        selected := EntriesAsWritten(elementData.value);
      }
    }

    /** An edit in the editor adds its entry to the list. */
    method AddToSelection(entry: EditorEntry)
      modifies this
      ensures dom == old(dom) && events == old(events)
      ensures selected == old(selected) + [entry]
    {
      selected := selected + [entry];
    }

    /** Removing entry `index` from the list after the user confirmed it: the page element
        is deselected and the entry is spliced out. */
    method RemoveSelectedAt(index: nat, confirmed: bool)
      requires Valid() && index < |selected|
      modifies this
      ensures Valid()
      ensures events == old(events)
      ensures confirmed ==> selected == RemoveAt(old(selected), index)
      ensures confirmed ==> dom == Deselect(old(dom), old(selected)[index], query)
      ensures !confirmed ==> selected == old(selected) && dom == old(dom)
    {
      if !confirmed {
        return;
      }
      var entry := selected[index];
      var matches := query(entry.selector);
      if |matches| > 0 {
        var pageElement := matches[0];
        dom := dom[pageElement := dom[pageElement].(classes := RemoveClass(dom[pageElement].classes, SelectedMark))];
        if entry.action == Hide {
          dom := dom[pageElement := dom[pageElement].(opacity := Restored)];
        }
      }
      assert dom == Deselect(old(dom), entry, query);
      selected := RemoveAt(selected, index);
    }
  }
}
