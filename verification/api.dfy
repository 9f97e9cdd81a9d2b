/**
 * The shape of the classification service's reply as App.js reads it. The
 * service itself, the HTTP transport and `JSON.parse` are not modelled; a
 * reply arrives as one of these values.
 */
module Api {
  import opened Options

  /** One classifier's verdict; `prediction` is `"spam"` or `"ham"`. */
  datatype ModelRecord = ModelRecord(modelName: string, prediction: string, confidence: real)

  datatype Metadata = Metadata(senderDomain: string, domainType: string, domainFlag: bool)

  datatype ParsedData = ParsedData(sender: string, subject: string)

  /** The JSON object `response.json()` yields; `error` is absent (`None`) on most successes. */
  datatype Reply = Reply(
    success: bool,
    error: Option<string>,
    baseline: ModelRecord,
    enhanced: ModelRecord,
    metadata: Metadata,
    parsed: Option<ParsedData>)
}
