/**
 * The detector as the scan sees it. The remote model call is an oracle: it either
 * fails in transport, which `detectCommercialProducts` does not catch, or returns
 * response text, which is parsed as JSON. An empty text stands for the empty item
 * list, and text that does not parse yields no items instead of an error.
 */
module Detection {
  import opened Wrappers
  import opened Types

  /** What the remote call gives back. `Replied("")` also stands for a missing text. */
  datatype Reply = TransportFailed | Replied(text: string)

  /** What `await detectCommercialProducts(...)` yields to the scan: a result or a throw. */
  datatype Detection = Detected(items: seq<DetectedItem>) | Threw

  /** The text used in place of an empty response. */
  const EmptyResponseText: string := "{\"items\":[]}"

  /** `parse` reads the substitute for an empty response as the empty item list, as `JSON.parse` does. */
  predicate ParsesEmptyResponse(parse: string -> Option<GeminiResponse>) {
    parse(EmptyResponseText) == Some(GeminiResponse([]))
  }

  /**
   * The outcome of one detection, given the remote reply and the JSON parser
   * (`None` for a parse failure).
   */
  function DetectCommercialProducts(reply: Reply, parse: string -> Option<GeminiResponse>): (d: Detection)
    ensures d.Threw? <==> reply.TransportFailed?
    ensures reply == Replied("") && ParsesEmptyResponse(parse) ==> d == Detected([])
    ensures reply.Replied? && reply.text != "" ==>
      d == Detected(if parse(reply.text).Some? then parse(reply.text).value.items else [])
  {
    match reply
    case TransportFailed => Threw
    case Replied(text) =>
      var t := if text == "" then EmptyResponseText else text;
      match parse(t)
      case Some(response) => Detected(response.items)
      case None => Detected([])
  }
}
