/** The post-processing of `analyzeVehicle` from the model's response to the returned
    analysis: grounding sources, decoding, and the URL fix applied to the payload. */
module Analysis {
  import opened Wrappers
  import opened Types
  import opened Grounding
  import opened Decoder
  import opened Reconcile

  /** `resultJson.comparableListings`: missing, present but not an array, or an array of listings. */
  datatype ListingsField = Absent | NotAnArray | Listings(items: seq<ComparableListing>)

  /** The parsed payload; `otherFields` stands for every other member (prices, verdict,
      reasoning, ...), which this code only passes through. */
  datatype Payload<R> = Payload(comparableListings: ListingsField, otherFields: R)

  /** `{ ...resultJson, groundingSources: sources }`. */
  datatype AnalysisResult<R> = AnalysisResult(payload: Payload<R>, groundingSources: seq<GroundingSource>)

  /** A missing API key, or a response that could not be decoded. */
  datatype AnalysisError = MissingApiKey | Unreadable(reason: DecodeError)

  /** The listing fix: an array of listings is resolved; anything else is left as it is. */
  method FixComparableListings<R>(payload: Payload<R>, sources: seq<GroundingSource>) returns (fixed: Payload<R>)
    ensures fixed.otherFields == payload.otherFields
    ensures !payload.comparableListings.Listings? ==> fixed == payload
    ensures payload.comparableListings.Listings? ==>
      && fixed.comparableListings.Listings?
      && |fixed.comparableListings.items| == |payload.comparableListings.items|
      && forall i :: 0 <= i < |payload.comparableListings.items| ==>
           fixed.comparableListings.items[i] ==
             payload.comparableListings.items[i].(url := Some(ResolvedUrl(payload.comparableListings.items[i], sources)))
  {
    fixed := payload;
    if payload.comparableListings.Listings? {
      var resolved := ResolveAll(payload.comparableListings.items, sources);
      fixed := payload.(comparableListings := Listings(resolved));
    }
  }

  /** `analyzeVehicle` after the model call: `apiKey` is `process.env.API_KEY`, `responseText`
      is `response.text` and `groundingChunks` the first candidate's grounding chunks (each
      possibly missing); `parse` is `JSON.parse`. */
  method AnalyzeResponse<R>(
    apiKey: string,
    responseText: Option<string>,
    groundingChunks: Option<seq<GroundingChunk>>,
    parse: string -> Option<Payload<R>>)
    returns (result: Result<AnalysisResult<R>, AnalysisError>)
    ensures apiKey == "" ==> result == Failure(MissingApiKey)
    ensures apiKey != "" ==>
      var text := if responseText.Some? then responseText.value else "";
      var chunks := if groundingChunks.Some? then groundingChunks.value else [];
      match Decode(text, parse)
      case Failure(e) => result == Failure(Unreadable(e))
      case Success(payload) =>
        && result.Success?
        && result.value.groundingSources == FilterSources(chunks)
        && result.value.payload.otherFields == payload.otherFields
        && (!payload.comparableListings.Listings? ==> result.value.payload == payload)
        && (payload.comparableListings.Listings? ==>
             && result.value.payload.comparableListings.Listings?
             && |result.value.payload.comparableListings.items| == |payload.comparableListings.items|
             && forall i :: 0 <= i < |payload.comparableListings.items| ==>
                  result.value.payload.comparableListings.items[i] ==
                    payload.comparableListings.items[i].(url := Some(ResolvedUrl(payload.comparableListings.items[i], FilterSources(chunks)))))
  {
    if apiKey == "" {
      return Failure(MissingApiKey);
    }
    var text := if responseText.Some? then responseText.value else "";
    var chunks := if groundingChunks.Some? then groundingChunks.value else [];
    var sources := FilterSources(chunks);
    var decoded := Decode(text, parse);
    if decoded.Failure? {
      return Failure(Unreadable(decoded.error));
    }
    var fixed := FixComparableListings(decoded.value, sources);
    result := Success(AnalysisResult(fixed, sources));
  }
}
