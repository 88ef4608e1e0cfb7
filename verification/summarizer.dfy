/** The guard and the reply handling of `get_summary_from_gemini`. The API
    call itself is a parameter: what the service answered, or the text of
    the exception the call raised. */
module Summarizer {
  import opened Results
  import opened StringOps

  /** The service's reply: `response.text` (`None` when the reply carries
      no text), or the exception the call raised. */
  datatype Reply = Answered(text: Option<string>) | Raised(message: string)

  /** The returned string, and whether the API was called. */
  datatype Summary = Summary(apiCalled: bool, output: string)

  const EmptyContent: string := "Error: Content to summarize is empty."
  const ApiError: string := "An error during Gemini API call: "

  /** The exception `None.strip()` raises inside the `try`. */
  const NoText: string := "'NoneType' object has no attribute 'strip'"

  /** `get_summary_from_gemini`: empty content is refused before any call;
      otherwise the trimmed reply, or the error text the `except` builds. */
  function GetSummary(content: string, reply: Reply): (r: Summary)
    ensures r.apiCalled <==> content != []
    ensures content == [] ==> r.output == EmptyContent
    ensures content != [] && reply.Answered? && reply.text.Some? ==>
              r.output == Strip(reply.text.value) && IsStripped(r.output)
    ensures content != [] && reply.Answered? && reply.text.None? ==> r.output == ApiError + NoText
    ensures content != [] && reply.Raised? ==> r.output == ApiError + reply.message
  {
    if content == [] then Summary(false, EmptyContent)
    else match reply
      case Answered(Some(text)) => Summary(true, Strip(text))
      case Answered(None) => Summary(true, ApiError + NoText)
      case Raised(message) => Summary(true, ApiError + message)
  }

  /** Empty content gets the same fixed answer whatever the service would
      have said, since the service is never asked. */
  lemma EmptyContentNeverCallsApi(r1: Reply, r2: Reply)
    ensures GetSummary([], r1) == GetSummary([], r2) == Summary(false, EmptyContent)
  {
  }
}
