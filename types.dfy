/** The records the user interface passes around. */
module Types {
  import opened Wrappers

  /** A catalog entry; `timestamp` is a clock reading in milliseconds. */
  datatype VideoItem = VideoItem(
    id: string,
    title: string,
    description: string,
    videoUrl: string,
    thumbnailUrl: string,
    timestamp: int)

  /** One product the detector reports; `confidence` is a number in [0, 1] as the detector gives it. */
  datatype DetectedItem = DetectedItem(
    name: string,
    brand: Option<string>,
    category: string,
    description: string,
    attributes: Option<seq<string>>,
    confidence: real)

  /** The detector's JSON reply. */
  datatype GeminiResponse = GeminiResponse(items: seq<DetectedItem>)
}
