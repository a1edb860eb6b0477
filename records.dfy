/** The JSON records the client receives from the server and sends back to it. */
module Records {
  import opened Wrappers

  /** An identifier as a JavaScript value; `===` between two of them is equality here, so a
      numeric id never equals its string spelling, and two missing ids are equal. */
  datatype Id = Undefined | Num(n: int) | Str(s: string)

  /** One element change of a variation (an item of `elementData`). A missing `action` or
      `type` is the empty string; `newContent` and `originalContent` may be absent. */
  datatype Change = Change(selector: string, action: string, kind: string,
                           newContent: Option<string>, originalContent: Option<string>)

  /** A variation; `elementData` is None when it is missing or not an array. */
  datatype Variation = Variation(id: Id, name: string, elementData: Option<seq<Change>>)

  /** One entry of an experiment's `trafficAllocation.variations`. */
  datatype TrafficVariation = TrafficVariation(id: Id, percentage: int, isControl: bool)

  /** An active experiment as the server sends it. `allocation` is None when
      `trafficAllocation` or its `variations` is missing; `variations` is None when it is
      missing or not an array; `selectedVariation` is Undefined until one is chosen. */
  datatype ExperimentData = ExperimentData(id: Id, allocation: Option<seq<TrafficVariation>>,
                                           variations: Option<seq<Variation>>,
                                           selectedVariation: Id)

  /** A tracked event, as far as the client decides it (the rest of the payload is page
      context: URL, time stamp, referrer, user agent, UTM parameters). */
  datatype Event = Event(experimentId: Id, eventType: string)

  /** An entry of the editor's selected-elements list. Entries that the editor pushes carry
      the replacement under `newContent`; entries built from a stored variation carry it
      under `content` (both are kept so that a stored payload can be read back). */
  datatype EditorEntry = EditorEntry(selector: string, content: Option<string>,
                                     newContent: Option<string>, action: string, kind: string,
                                     originalContent: Option<string>)

  const Hide := "hide"
  const Show := "show"
  const Modify := "modify"
  const TextKind := "text"
  const ImageKind := "image"
  const VideoKind := "video"
  const IframeKind := "iframe"
  const Impression := "impression"
}
