/**
 * The client's small request rules: which mode a page load runs in, and which request a
 * design-mode save sends.
 */
module Requests {
  import opened Wrappers
  import opened Strings
  import opened Records

  /** A query string as `URLSearchParams` holds it: its key/value pairs, in order. */
  type Params = seq<(string, string)>

  /** The index of the first pair whose key `accept` takes. */
  function FirstKey(ps: Params, accept: string -> bool): (r: Option<nat>)
    ensures r.Some? ==> r.value < |ps| && accept(ps[r.value].0)
    ensures r.Some? ==> forall j :: 0 <= j < r.value ==> !accept(ps[j].0)
    ensures r.None? ==> forall j :: 0 <= j < |ps| ==> !accept(ps[j].0)
    decreases |ps|
  {
    if ps == [] then None
    else if accept(ps[0].0) then Some(0)
    else
      var rest := FirstKey(ps[1..], accept);
      if rest.Some? then
        assert forall j :: 1 <= j < rest.value + 1 ==> ps[j] == ps[1..][j - 1];
        Some(rest.value + 1)
      else
        assert forall j :: 1 <= j < |ps| ==> ps[j] == ps[1..][j - 1];
        None
  }

  /** `params.get(key)`: the value of the first pair with that key; None when it is absent
      (`params.has(key)` is false). */
  function Get(ps: Params, key: string): Option<string> {
    match FirstKey(ps, k => k == key)
    case Some(i) => Some(ps[i].1)
    case None => None
  }

  predicate IsExpKey(k: string) {
    StartsWith(k, "exp_")
  }

  /** What a page load does. */
  datatype Mode =
    | Design(existingVariationId: Option<string>)  // the visual editor, maybe on a stored variation
    | ViewExperiment(expId: string)                // a preview link `?exp_<id>`
    | ActiveExperiments                            // serve the site's running experiments

  /** `applyExperiment`: design mode (a `design` parameter, with any value) first; else the
      first `exp_` key, whose id is the text between its first and second underscore; else
      the active experiments. */
  function PageMode(ps: Params): (m: Mode)
    ensures m.ViewExperiment? ==> '_' !in m.expId
  {
    if Get(ps, "design").Some? then Design(Get(ps, "variation"))
    else
      match FirstKey(ps, IsExpKey)
      case Some(i) =>
        var key := ps[i].0;
        assert key[3] == '_';
        ViewExperiment(SecondField(key, '_'))
      case None => ActiveExperiments
  }

  /** `params.has(key)`: a key is present exactly when some pair carries it. */
  lemma GetFindsKey(ps: Params, key: string)
    ensures Get(ps, key).Some? <==> exists j :: 0 <= j < |ps| && ps[j].0 == key
  {
    var r := FirstKey(ps, k => k == key);
    if r.None? {
      assert forall j :: 0 <= j < |ps| ==> ps[j].0 != key;
    }
  }

  /** A preview link `?exp_<id>` (with `exp_<id>` as the first such key, and no `design`
      parameter) opens exactly experiment `<id>`, whatever other parameters follow, for every
      id without '_'. */
  lemma {:induction false} PreviewLinkRoundTrip(id: string, before: Params, after: Params, v: string)
    requires '_' !in id
    requires forall j :: 0 <= j < |before| ==> !IsExpKey(before[j].0) && before[j].0 != "design"
    requires forall j :: 0 <= j < |after| ==> after[j].0 != "design"
    ensures PageMode(before + [("exp_" + id, v)] + after) == ViewExperiment(id)
  {
    var ps := before + [("exp_" + id, v)] + after;
    var key := "exp_" + id;
    assert ps[|before|] == (key, v);
    assert IsExpKey(key) by {
      assert key[..4] == "exp_";
    }
    forall j | 0 <= j < |before| ensures !IsExpKey(ps[j].0) && ps[j].0 != "design" {
      assert ps[j] == before[j];
    }
    assert key != "design" by {
      assert key[0] == 'e';
    }
    forall j | |before| < j < |ps| ensures ps[j].0 != "design" {
      assert ps[j] == after[j - |before| - 1];
    }
    GetFindsKey(ps, "design");
    assert FirstKey(ps, IsExpKey) == Some(|before|);
    assert key == "exp" + ['_'] + id;
    SecondFieldRoundTrip("exp", id, '_');
  }

  /** A `design` parameter wins over every other query parameter, and the editor opens the
      variation named by the `variation` parameter, if there is one. */
  lemma DesignModeComesFirst(ps: Params)
    requires exists j :: 0 <= j < |ps| && ps[j].0 == "design"
    ensures PageMode(ps) == Design(Get(ps, "variation"))
    ensures Get(ps, "variation").Some? <==> exists j :: 0 <= j < |ps| && ps[j].0 == "variation"
  {
    GetFindsKey(ps, "design");
    GetFindsKey(ps, "variation");
  }

  /** Without a `design` parameter and without an `exp_` key the client serves the active
      experiments. */
  lemma NoPreviewServesActive(ps: Params)
    requires forall j :: 0 <= j < |ps| ==> !IsExpKey(ps[j].0) && ps[j].0 != "design"
    ensures PageMode(ps) == ActiveExperiments
  {
    GetFindsKey(ps, "design");
    assert FirstKey(ps, IsExpKey).None?;
  }

  /** The website id a save sends: the configured one, unless it is still an unfilled
      `{{...}}` template, in which case the script tag's `data-website-id`, else "1". */
  function ResolveWebsiteId(configured: string, scriptAttr: Option<string>): string
  {
    if Contains(configured, "{{") then
      (if scriptAttr.Some? then scriptAttr.value else "1")
    else configured
  }

  datatype SaveError = MissingName | NothingSelected

  datatype Verb = Post | Put

  /** The JSON body of a save. */
  datatype Payload = Payload(websiteId: string, name: string, elementData: seq<EditorEntry>,
                             url: string)

  datatype SaveRequest = SaveRequest(verb: Verb, url: string, payload: Payload)

  /** `saveVariation` up to the request: the name is checked before the selection, the page
      URL loses its query string, and an existing `variation` id means an update. */
  function PrepareSave(host: string, name: string, selected: seq<EditorEntry>,
                       configuredSite: string, scriptAttr: Option<string>, href: string,
                       ps: Params): (r: Result<SaveRequest, SaveError>)
    ensures r == Err(MissingName) <==> name == ""
    ensures r == Err(NothingSelected) <==> name != "" && selected == []
    ensures r.Ok? ==>
      && r.value.payload.websiteId == ResolveWebsiteId(configuredSite, scriptAttr)
      && r.value.payload.name == name
      && r.value.payload.elementData == selected
      && StartsWith(href, r.value.payload.url) && '?' !in r.value.payload.url
      && (|r.value.payload.url| < |href| ==> href[|r.value.payload.url|] == '?')
      && ('?' !in href ==> r.value.payload.url == href)
    ensures r.Ok? && r.value.verb == Put <==>
      r.Ok? && Get(ps, "variation").Some? && Get(ps, "variation").value != ""
    ensures r.Ok? && r.value.verb == Put ==>
      r.value.url == host + "/api/variations/" + Get(ps, "variation").value
    ensures r.Ok? && r.value.verb == Post ==> r.value.url == host + "/api/variations"
  {
    if name == "" then Err(MissingName)
    else if |selected| == 0 then Err(NothingSelected)
    else
      var payload := Payload(ResolveWebsiteId(configuredSite, scriptAttr), name, selected,
                             BeforeFirst(href, '?'));
      var existing := Get(ps, "variation");
      if existing.Some? && existing.value != "" then
        Ok(SaveRequest(Put, host + "/api/variations/" + existing.value, payload))
      else Ok(SaveRequest(Post, host + "/api/variations", payload))
  }
}
