/**
 * Records of the OTX feed as the crawler decodes them, and the two document
 * kinds it builds from them: posts (pulses) and indicators.
 */
module Feed {

  /** One entry of a result's `indicators` array. */
  datatype RawIndicator = RawIndicator(
    id: int,
    indicator: string,
    rawType: string,
    created: string)

  /** One pulse of the feed's `results` array. */
  datatype RawResult = RawResult(
    id: string,
    name: string,
    description: string,
    authorName: string,
    modified: string,
    created: string,
    indicators: seq<RawIndicator>,
    tags: seq<string>,
    targetedCountries: seq<string>,
    malwareFamilies: seq<string>,
    attackIds: seq<string>,
    references: seq<string>,
    industries: seq<string>)

  /** A decoded page; a response that failed to decode is `Data([], 0)`. */
  datatype Data = Data(results: seq<RawResult>, count: int)

  /** The stored form of a pulse. */
  datatype Post = Post(
    id: string,
    name: string,
    description: string,
    authorName: string,
    modified: string,
    created: string,
    tags: seq<string>,
    targetedCountries: seq<string>,
    malwareFamilies: seq<string>,
    attackIds: seq<string>,
    industries: seq<string>,
    references: seq<string>,
    crawledTime: string)

  /** The stored form of an indicator. */
  datatype Indicator = Indicator(
    iocId: string,
    ioc: string,
    iocType: string,
    createdTime: string,
    crawledTime: string,
    source: string,
    category: seq<string>,
    postId: string)

  /** Source tag written on every indicator taken from this feed. */
  const Source: string := "otx"
}
