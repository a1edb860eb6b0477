/**
 * The design-mode editor's list of selected elements: how a stored variation is loaded
 * into it, what a save sends back from it, and how an entry is removed.
 */
module Editor {
  import opened Wrappers
  import opened Dom
  import opened Records
  import opened Mutation
  import opened MutationFacts

  /** `item.action || 'modify'`: a missing (empty) action becomes 'modify'. */
  function DefaultAction(a: string): (r: string)
    ensures r != ""
    ensures a != "" ==> r == a
    ensures a == "" ==> r == Modify
  {
    if a == "" then Modify else a
  }

  /** A stored change as the editor loads it, as written: the replacement goes under
      `content`, and `newContent` is left out. */
  function EntryAsWritten(c: Change): EditorEntry {
    EditorEntry(c.selector, c.newContent, None, DefaultAction(c.action), c.kind, c.originalContent)
  }

  /** A stored change as an editor entry, with the replacement under `newContent`, the key
      the editor's own entries, the save and both engines use. */
  function Entry(c: Change): EditorEntry {
    EditorEntry(c.selector, None, c.newContent, DefaultAction(c.action), c.kind, c.originalContent)
  }

  /** The change a saved entry becomes when the server hands it back (`content` is not a
      field of a change). */
  function StoredChange(en: EditorEntry): Change {
    Change(en.selector, en.action, en.kind, en.newContent, en.originalContent)
  }

  /** The selected-elements list built from a variation's `elementData`, with the
      replacement kept under `newContent`. */
  function Entries(cs: seq<Change>): (r: seq<EditorEntry>)
    ensures |r| == |cs|
    ensures forall i :: 0 <= i < |cs| ==>
      && r[i].selector == cs[i].selector && r[i].kind == cs[i].kind
      && r[i].originalContent == cs[i].originalContent
      && r[i].action == DefaultAction(cs[i].action)
      && r[i].newContent == cs[i].newContent && r[i].content.None?
  {
    seq(|cs|, i requires 0 <= i < |cs| => Entry(cs[i]))
  }

  /** The selected-elements list as the editor builds it from a variation's `elementData`:
      the replacement goes under `content` and `newContent` is absent. */
  function EntriesAsWritten(cs: seq<Change>): (r: seq<EditorEntry>)
    ensures |r| == |cs|
    ensures forall i :: 0 <= i < |cs| ==>
      && r[i].selector == cs[i].selector && r[i].kind == cs[i].kind
      && r[i].originalContent == cs[i].originalContent
      && r[i].action == DefaultAction(cs[i].action)
      && r[i].content == cs[i].newContent && r[i].newContent.None?
  {
    seq(|cs|, i requires 0 <= i < |cs| => EntryAsWritten(cs[i]))
  }

  /** The changes a save of the list stores: each entry's fields under the same names, its
      `content` dropped. */
  function StoredChanges(es: seq<EditorEntry>): (r: seq<Change>)
    ensures |r| == |es|
    ensures forall i :: 0 <= i < |es| ==>
      && r[i].selector == es[i].selector && r[i].action == es[i].action
      && r[i].kind == es[i].kind && r[i].newContent == es[i].newContent
      && r[i].originalContent == es[i].originalContent
  {
    seq(|es|, i requires 0 <= i < |es| => StoredChange(es[i]))
  }

  /** With the corrected loader, loading a stored variation and saving it again gives back
      every change, with a missing action filled in as 'modify'. */
  lemma ResaveKeepsChanges(cs: seq<Change>)
    ensures var back := StoredChanges(Entries(cs));
      |back| == |cs| &&
      forall i :: 0 <= i < |cs| ==> back[i] == cs[i].(action := DefaultAction(cs[i].action))
  {
  }

  /** As written, a re-saved change has lost its replacement content. */
  lemma ResaveLosesContentAsWritten(cs: seq<Change>)
    ensures var back := StoredChanges(EntriesAsWritten(cs));
      |back| == |cs| && forall i :: 0 <= i < |cs| ==> back[i].newContent.None?
  {
  }

  /** The smallest case: a paragraph's text change, loaded and saved again as written, puts
      the text "undefined" on the page instead of the edited text. */
  lemma ResavedTextBecomesUndefined()
    ensures var e := Element("P", "", [], None, None, None, "", Markup("Old"), "", 0);
      var c := Change("#intro", Modify, TextKind, Some("New"), Some("Old"));
      && ElementEffect(e, c, ServingAsWritten).content == Markup("New")
      && ElementEffect(e, StoredChange(EntryAsWritten(c)), ServingAsWritten).content
         == Markup("undefined")
  {
  }

  /** With the corrected loader, loading a stored variation into the editor and saving it
      again does not change what the variation does to any page, live or in the replay. */
  lemma {:induction false} ResaveActsTheSame(dom: seq<Element>, cs: seq<Change>,
                                             query: string -> seq<Handle>, engine: Engine)
    requires WellFormed(dom) && QueryOk(query, |dom|)
    ensures ApplyChanges(dom, StoredChanges(Entries(cs)), query, engine)
         == ApplyChanges(dom, cs, query, engine)
    decreases |cs|
  {
    var back := StoredChanges(Entries(cs));
    if cs != [] {
      var cs' := cs[..|cs| - 1];
      assert back[..|back| - 1] == StoredChanges(Entries(cs'));
      ResaveActsTheSame(dom, cs', query, engine);
      var d0 := ApplyChanges(dom, cs', query, engine);
      var c := cs[|cs| - 1];
      var c' := back[|back| - 1];
      if c.action == "" {
        assert c' == c.(action := Modify);
        ModifyIsTheDefault(d0, query(c.selector), c, engine);
      } else {
        assert c' == c;
      }
    }
  }

  /** `splice(index, 1)` */
  function RemoveAt<T>(s: seq<T>, index: nat): (r: seq<T>)
    requires index < |s|
    ensures |r| == |s| - 1
    ensures forall j :: 0 <= j < index ==> r[j] == s[j]
    ensures forall j :: index <= j < |r| ==> r[j] == s[j + 1]
  {
    s[..index] + s[index + 1..]
  }

  /** Removing an entry removes exactly that one entry. */
  lemma RemoveAtIsPermutation<T>(s: seq<T>, index: nat)
    requires index < |s|
    ensures multiset(RemoveAt(s, index)) + multiset{s[index]} == multiset(s)
  {
    assert s == s[..index] + [s[index]] + s[index + 1..];
  }
}
