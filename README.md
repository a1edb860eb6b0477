# A/B optimizer client, modelled in Dafny

This project models the core of `client-script.js`, the browser script of an A/B-testing
service. The script runs in the customer's page and does one of three things when the page
loads:

* **Serve the active experiments.** It walks the traffic allocation of every active
  experiment with one running percentage and a random draw. It then applies the chosen
  variation's element changes to the page and tracks an impression.
* **Serve a preview link** `?exp_<id>`. It applies that one experiment's selected variation.
* **Run design mode** `?design`. It opens the visual editor. The editor replays a stored
  variation on the page, marking every element it touches. It builds CSS selectors for the
  elements the user clicks, keeps a list of selected elements, removes entries from that
  list, and saves the list as a POST or PUT request.

## How the model is organised

Each module follows one part of the script:

* `Dom` is the page: a sequence of elements in document order, where an element's handle
  is its index. An element has a parent, a previous element sibling and a first `<source>`
  descendant; the parent and the previous sibling point backwards, the first `<source>`
  descendant forwards (`WellFormed`). Selector matching
  (`querySelectorAll`) is a fixed function from selector to handles, in document order
  (`QueryOk`).
* `Records` holds the JSON records the client exchanges with the server. Ids are
  JavaScript values, so that `===` is plain equality.
* `Traffic` is the traffic selector. It has a specification (`Slots`, `FirstHit`,
  `Decision`) and the loop itself (`SelectExperimentByTraffic`), which is proved equal to
  the specification.
* `Mutation` is the mutation engine as functions. There is one element step, `Step`, and
  the folds over matched elements and over changes built from it. The engine runs as
  `ServingAsWritten` (the live switch exactly as written, which drops 'iframe' changes),
  `Replay` (design mode) or `Serving` (the live switch corrected to honour 'iframe' changes
  as the replay does; see Findings).
* `MutationFacts` states what a change does to the page, element by element.
* `Client.Optimizer` is the stateful client: the page, the tracked events and the editor's
  selection. Its methods follow the script's loops and statements as written, and are
  proved against the `Mutation` functions with the `ServingAsWritten` and `Replay`
  engines.
* `Selectors` is `getUniqueSelector`, the selector resolver, as written
  (`UniqueSelector`) and corrected to ignore the editor's own classes
  (`UniqueSelectorOwnClasses`).
* `Requests` covers the page-mode dispatch, the website-id fallback and the request a
  save sends.
* `Editor` covers the editor's entry list: loading a stored variation into it (as written,
  `EntriesAsWritten`, and corrected, `Entries`), saving it back, and removing an entry
  from it.

Three behaviours of the code that a reader might not expect are modelled as the code has
them:

* the path selector always walks up to `body`; it does not stop once the path is unique;
* `nth-of-type` is added when the parent holds several *descendants* with the tag, not
  several children (`parent.parentElement.querySelectorAll(segment)`), while the index
  itself counts earlier element siblings only;
* neither engine records an element's original state, and nothing reads the editor's
  stored `originalContent` back, so nothing is reverted.

Members whose row says "(corrected)" describe the behaviour the code evidently intends,
not what the cited lines do; the Findings table pairs each with the as-written member.

## Model

| member | source | states |
|---|---|---|
| Traffic.SelectExperimentByTraffic | client-script.js:175-217 | the returned selection is exactly `Decision`: none for a missing or empty list, else the first allocation entry (over all experiments, in order) whose running total reaches the draw decides, a control entry meaning none |
| Traffic.VisitExperiment | client-script.js:182-209 | one experiment of the walk: either the decision is reached inside its allocation, or the running total and the "no entry reached yet" fact are carried past all of its entries |
| Traffic.WalkAllocation | client-script.js:190-209 | the inner walk stops at the first entry of the allocation that the draw reaches, and that entry is the first hit of the whole walk; otherwise the total covers all its entries and none was reached |
| Traffic.DecisionMeaning | client-script.js:190-209 | a selection exists iff the first entry reached is not a control; it carries that entry's experiment id, the experiment is one of the inputs with an allocation holding the entry, and it is unchanged except `selectedVariation`, which becomes the entry's id |
| Traffic.RunningTotalNeverReset | client-script.js:180-193 | the running percentage is not reset between experiments: inside a later experiment it is the total of all earlier ones plus its own running total |
| Traffic.SkipsUnallocated | client-script.js:183-187 | an experiment without a traffic allocation contributes no entry: removing it changes nothing |
| Traffic.SlotsComeFromAllocations | client-script.js:182-190 | every entry walked is an allocation entry of one of the given experiments |
| Traffic.BeyondTotalSelectsNothing | client-script.js:211-216 | with non-negative percentages, a draw above their sum selects nothing |
| Traffic.EarlierEntryWinsTies | client-script.js:194-195 | `<=` against the running total: of two entries with the same running total, the later one is never hit |
| Traffic.RunningTotalBounded | client-script.js:190-192 | with non-negative percentages no running total exceeds the overall total |
| Mutation.Apply | client-script.js:220-281 | applying a variation (or none) keeps the page's tree (tags, ids, parents, siblings) and its well-formedness; only attributes change |
| Mutation.Step | client-script.js:237-276 | handling one matched element keeps the page's tree and its well-formedness |
| MutationFacts.ChangeIsPointwise | client-script.js:229-279 | a change that cannot reload a video turns every element its selector matches into the one-element result and leaves every other element unchanged |
| MutationFacts.StepAllPointwise | client-script.js:237-276 | handling the matched elements in order is handling each one once: duplicates in the match list change nothing further |
| MutationFacts.TouchTwice | client-script.js:237-276 | handling an element twice with the same change is handling it once |
| MutationFacts.HideFadesMatches | client-script.js:239-242 | live, 'hide' sets opacity '0.3' on every matched element and nothing else |
| MutationFacts.ShowRevealsMatches | client-script.js:244-246 | live, 'show' sets opacity '1.0' on every matched element and nothing else |
| MutationFacts.ModifyIsTheDefault | client-script.js:248-249 | any action other than 'hide' and 'show' (live), or other than 'hide' (replay), behaves exactly like 'modify' |
| MutationFacts.TextChangeSetsContent | client-script.js:250-256 | a text change sets `textContent` on H1-H6 and `innerHTML` on any other matched element; an absent value becomes "" and "undefined" respectively |
| MutationFacts.ImageChangeOnlyOnImg | client-script.js:257-258 | an image change sets `src` on matched IMG elements and leaves every other element unchanged |
| MutationFacts.StepAllVideo | client-script.js:259-267 | a video change on matched elements in document order: each matched VIDEO is reloaded once, and each `src` that is set is the first source's or the element's own |
| MutationFacts.VideoChangeEffect | client-script.js:259-270 | a live video change reloads exactly the matched VIDEO elements; it sets the `src` of their first `<source>` (or of the element itself) and of matched IFRAMEs; nothing else changes |
| MutationFacts.UnsupportedTypeChangesNothing | client-script.js:271-273 | a modify change of any other type leaves the page as it was |
| MutationFacts.IframeIgnoredAsWritten | client-script.js:257-273 | as written, a live 'iframe' change leaves the page unchanged |
| MutationFacts.IframeEditLostLive | client-script.js:257-273 | a concrete iframe edit that the replay and the corrected engine apply, and the live switch as written drops |
| MutationFacts.IframeChangeSetsSrc | client-script.js:1393-1394 | (corrected) the corrected live engine sets `src` on matched IFRAMEs for an 'iframe' change, as the replay does |
| MutationFacts.ReplayHideFadesAndMarks | client-script.js:1368-1399 | the replay fades a hidden element like the live client and also marks it selected |
| MutationFacts.StepAllReplayMarks | client-script.js:1399 | one replayed change marks every element it matches and removes no class |
| MutationFacts.ReplayMarksEveryMatch | client-script.js:1358-1400 | after the replay every element matched by any change carries 'ab-optimizer-selected', and no class was removed |
| MutationFacts.StepAllAgrees | client-script.js:1366-1398 | for one change without 'show' (and, for the live switch as written, not of type 'iframe'), either live engine and the replay agree on everything but class lists |
| MutationFacts.ServingAgreesWithReplay | client-script.js:1366-1398 | for every variation without a 'show' change (and, for the live switch as written, without an 'iframe' change), the live client and the replay leave the page the same apart from class lists |
| MutationFacts.ServingKeepsClasses | client-script.js:237-276 | the live client, as written or corrected, never changes a class list |
| MutationFacts.StepAllKeepsClasses | client-script.js:237-276 | live (as written or corrected), one change on its matched elements never changes a class list |
| MutationFacts.UnmatchedVariationChangesNothing | client-script.js:232-235 | a variation none of whose selectors matches leaves the page as it was |
| Client.FindVariation | client-script.js:300 | `find`: the first index whose id is `===` the wanted one; none exactly when no id matches |
| Client.ChosenVariationMeaning | client-script.js:284-306 | nothing is shown exactly when the experiment is missing, its variations are missing, or no variation has the selected id; otherwise the variation shown is one of its variations with that id |
| Client.ServedVariationMatchesAllocation | client-script.js:124-129 | on a live page the variation shown is the experiment's variation whose id is the hit allocation entry's id, which is not a control; none is shown exactly when no variation has that id |
| Client.Deselect | client-script.js:1442-1450 | the first element the entry's selector matches loses 'ab-optimizer-selected' and, for a 'hide' entry, gets opacity '1'; every other element and field is unchanged |
| Client.Optimizer.TrackEvent | client-script.js:320-356 | the event (experiment id, type) is appended to the tracked events; page and selection unchanged |
| Client.Optimizer.ApplyToElement | client-script.js:237-276 | the live switch for one element, as written, yields exactly `Step` with the `ServingAsWritten` engine |
| Client.Optimizer.ApplyChangeToMatches | client-script.js:229-277 | one change applied to its matched elements in order yields `ApplyChange` with the `ServingAsWritten` engine |
| Client.Optimizer.ApplyVariationContent | client-script.js:220-281 | the page becomes `Apply(old page, elementData)` with the `ServingAsWritten` engine; events and selection unchanged |
| Client.Optimizer.ReplayOnElement | client-script.js:1366-1399 | the replay of one stored change on one element yields `Step` with the replay engine |
| Client.Optimizer.ReplayItem | client-script.js:1358-1400 | one stored change replayed on its matched elements yields `ApplyChange` with the replay engine |
| Client.Optimizer.ApplyExistingVariation | client-script.js:1354-1405 | the page becomes the stored variation replayed (unchanged when it or its element data is missing) |
| Client.Optimizer.ApplyExperimentChanges | client-script.js:284-317 | the chosen variation, if any, is applied with the `ServingAsWritten` engine and exactly one impression is tracked for the given id; with no chosen variation nothing changes |
| Client.Optimizer.ServeActiveExperiments | client-script.js:124-136 | for a non-empty list, the traffic decision's experiment is applied (with the `ServingAsWritten` engine) under its own id; otherwise nothing changes |
| Client.Optimizer.LoadSelection | client-script.js:422-430 | a stored variation's element data becomes the selected list as written (`EntriesAsWritten`): one entry per change in order, the replacement under `content`; page and events unchanged, and nothing changes without element data |
| Client.Optimizer.AddToSelection | client-script.js:1084 | an editor's entry is appended to the selected list |
| Client.Optimizer.RemoveSelectedAt | client-script.js:1438-1457 | when confirmed, the page is `Deselect`ed for the entry and the entry is spliced out; when not, nothing changes |
| Selectors.UniqueSelector | client-script.js:1680-1730 | as written: `#id` when the element has an id; else, when it has any class, the selector built from its whole class list if that matches exactly one element; else the trimmed path selector |
| Selectors.UniqueSelectorOwnClasses | client-script.js:1680-1730 | (corrected) the same resolver with the class selector built from the element's own classes only, taken when there are some and it matches exactly one element |
| Selectors.PathFor | client-script.js:1696-1727 | the upward walk builds "body " followed by the segments from below `body` (or the root) down to the element, joined by " > " |
| Selectors.SegmentFor | client-script.js:1706-1723 | a segment is the lower-case tag, plus `:nth-of-type(i)` when the parent holds more than one element of that tag |
| Selectors.NthOfType | client-script.js:1707-1714 | the index is 1 plus the number of earlier element siblings with the same tag |
| Selectors.EarlierSameTagMeaning | client-script.js:1710-1714 | the previous-sibling chain yields exactly the earlier elements with the same parent and tag |
| Selectors.IndexShownWhenEarlierSibling | client-script.js:1719-1723 | an element with an earlier same-tag sibling always gets its `nth-of-type` index |
| Selectors.PathSelectorStartsWithBody | client-script.js:1700-1703 | every path selector begins with `body` |
| Selectors.ClassSelectorIgnoresEditorMarks | client-script.js:1685-1692 | (corrected) for the corrected resolver, highlighting or marking an element changes neither its class selector nor whether that selector is used |
| Selectors.HighlightLeaksAsWritten | client-script.js:1680-1692 | as written, an id-less element whose only class is the highlight, and which is the one highlighted element, is given the selector `tag.ab-optimizer-highlight`; the corrected resolver gives its path |
| Selectors.HighlightedParagraphAsWritten | client-script.js:1686-1687 | as written, the class selector of a highlighted P without classes of its own is `p.ab-optimizer-highlight` |
| Requests.FirstKey | client-script.js:64-65 | `find` over the query keys: the first index whose key is accepted; none exactly when none is |
| Requests.PageMode | client-script.js:31-86 | a previewed experiment id never contains '_' |
| Requests.GetFindsKey | client-script.js:31 | `has(key)`: a key is present exactly when some pair carries it |
| Requests.PreviewLinkRoundTrip | client-script.js:64-81 | `?exp_<id>` (as the first `exp_` key, without a `design` parameter) opens experiment `<id>`, whatever other parameters surround it, for every id without '_' |
| Requests.DesignModeComesFirst | client-script.js:31-75 | with a `design` parameter (any value) the editor opens, whatever other parameters there are, on the `variation` parameter, present exactly when the key is |
| Requests.NoPreviewServesActive | client-script.js:86 | without a `design` parameter or an `exp_` key the active experiments are served |
| Requests.PrepareSave | client-script.js:1570-1617 | no name gives the name error, then an empty selection gives the selection error; otherwise the payload carries the website id (the configured one unless it is an unfilled `{{...}}` template; then the script tag's attribute, else "1"), name, selection and the URL before '?', and the request is a PUT to `/api/variations/<id>` exactly when `variation` is non-empty, else a POST to `/api/variations` |
| Strings.BeforeFirst | client-script.js:1600 | `split(sep)[0]`: the longest prefix without the separator, which follows it when it is shorter |
| Strings.SecondFieldRoundTrip | client-script.js:81 | `split('_')[1]` of `tag_field` gives back `field` |
| Editor.DefaultAction | client-script.js:426 | `action \|\| 'modify'`: never empty; a given action is kept; a missing one becomes 'modify' |
| Editor.EntriesAsWritten | client-script.js:422-430 | one editor entry per stored change, in order, with the same selector, type and original content, the action defaulted to 'modify', the replacement under `content` and no `newContent` |
| Editor.Entries | client-script.js:422-430 | (corrected) the same list with the replacement kept under `newContent` and no `content` |
| Editor.StoredChanges | client-script.js:1599 | a save stores each entry's selector, action, type, `newContent` and original content, one change per entry in order |
| Editor.ResaveKeepsChanges | client-script.js:422-430 | (corrected) with the corrected loader, loading a variation into the editor and saving it gives every change back, a missing action becoming 'modify' |
| Editor.ResaveActsTheSame | client-script.js:422-430 | (corrected) with the corrected loader, a re-saved variation does to every page exactly what the original does, live or replayed |
| Editor.ResaveLosesContentAsWritten | client-script.js:422-430 | as written, every re-saved change has lost its replacement content |
| Editor.ResavedTextBecomesUndefined | client-script.js:422-430 | as written, a re-saved text change puts "undefined" on the page instead of the edited text |
| Editor.RemoveAt | client-script.js:1454 | `splice(index, 1)`: one shorter, entries before kept, entries after shifted down by one |
| Editor.RemoveAtIsPermutation | client-script.js:1454 | the removal takes out exactly the one entry at the index |

## Left out

- Network I/O: fetching experiments, variations and the editor's lists, sending events and saves. A loaded value is a parameter; a tracked event is appended to `events`; a save stops at the request it would send.
- `Math.random()`: the draw `r` (`Math.random() * 100`) is a parameter of the traffic selector.
- The editor user interface: panels, modals, the text, image, video and iframe editors, their buttons and the mode switch. Only the entry an editor appends is modelled.
- Logging and the `try`/`catch` blocks. No operation in the model throws.
- Configuration bootstrapping (`abOptimizerConfig`, template placeholders), the legacy loader at 146-172 and the script loading at 1733 onwards.
- Selector matching itself: `querySelectorAll` is a fixed function of the selector. It is not re-evaluated after a change, so three effects on later matches are not captured: `innerHTML` that adds or removes elements is recorded as the element's new content, not as new elements; `textContent` on an H1-H6 removes its descendant elements, which stay in the page; and the 'ab-optimizer-selected' class the replay adds does not change what later class selectors match.
- Resolution of relative URLs and of an element's `src` property. The value assigned is kept as given.
- Percentages are integers. Non-numeric percentages (NaN, string concatenation) are not modelled.
- `className` with only whitespace counts as classes in the browser. Here an element has classes exactly when its class list is non-empty.
- MutationFacts.ServingAgreesWithReplay: for the live switch as written the agreement with the replay is stated only for variations without 'iframe' changes; such a change breaks it, as MutationFacts.IframeEditLostLive shows.
- MutationFacts.StepAllAgrees: likewise, for the live switch as written it is stated only for changes not of type 'iframe'.
- Requests.PageMode: an `exp_` key without a second '_' yields the text after the first '_'. An id containing '_' is cut at the next '_', which the round trip excludes.
- Requests.PrepareSave: a `variation` parameter is treated as truthy exactly when it is non-empty.
- Client.Optimizer.LoadSelection: the lookup of the stored variation with loose `==` and the direct fetch that follows it are not modelled. The variation's element data is a parameter.
- Client.Optimizer.RemoveSelectedAt: the user's answer to `confirm` is a parameter. `parseInt` of the list index is taken to give a valid index.

## Findings

| source | as written | input that shows it | evidently intended | confidence | as-written member | corrected member |
|---|---|---|---|---|---|---|
| client-script.js:257-273 | the live switch has no branch for `type: 'iframe'`, the type the iframe editor stores, so it logs "Unsupported element type" | an IFRAME with `src` "a.html" and a stored change `{type: 'iframe', action: 'modify', newContent: 'b.html'}`: the editor's replay shows "b.html", live visitors keep "a.html" | set `src` on IFRAME elements as the replay does (1393-1394) | high; not executed | MutationFacts.IframeEditLostLive | MutationFacts.IframeChangeSetsSrc |
| client-script.js:422-430 | a stored change loaded into the editor puts its replacement under `content`, but saving and both engines read `newContent`; this assumes the server hands back the `elementData` the save at 1599 sent, unchanged, which the script does not show (`StoredChange` is that round trip) | a variation with `{selector: '#intro', type: 'text', newContent: 'New'}` opened in the editor and saved again: the page then shows "undefined" instead of "New" | keep the replacement under `newContent` | high; not executed | Editor.ResavedTextBecomesUndefined | Editor.ResaveActsTheSame |
| client-script.js:1685-1692 | the class selector is built from the whole class list while the clicked element carries the editor's hover class 'ab-optimizer-highlight' | a `<p>` without classes of its own, hovered and clicked: the stored selector is `p.ab-optimizer-highlight`, which matches nothing for live visitors | build the class selector from the element's own classes | medium; not executed | Selectors.HighlightLeaksAsWritten | Selectors.UniqueSelectorOwnClasses |
