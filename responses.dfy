/** How each flow reads the reply of the HTTP wrapper. The wrapper returns a response object, or
    None when the request could not be made; the flows then branch on `if response and <code test>`,
    `elif response`, `else`. A response object of the `requests` library is truthy exactly when its
    status code is not a client or server error (codes 400 to 599), so the `elif response` branch is
    never taken for those codes. `ClassifyAsWritten` keeps that; `Classify` is the evidently intended
    reading (any reply that arrived is an API reply), which the flows of this model use. */
module Responses {
  import opened Wrappers

  /** What a flow reports about one reply. */
  datatype Outcome =
    | Accepted                  // the flow's success branch
    | NotFound                  // the export flow's dedicated "Transcript not found" message
    | ApiError(statusCode: int) // "Error <code>: <body>"
    | ConnectionFailed          // "Failed to connect to the API"

  /** Success codes of the three flows. */
  const SubmitCodes: set<int> := {200, 201}
  const StatusCodes: set<int> := {200}
  const ExportCodes: set<int> := {200}

  /** Truth value of a reply in a Python condition: None is false, a response is false for 4xx/5xx. */
  predicate Truthy(reply: Option<int>)
  {
    reply.Some? && !(400 <= reply.value < 600)
  }

  /** The branches as the source writes them; `notFound` is set for the export flow only. */
  function ClassifyAsWritten(reply: Option<int>, okCodes: set<int>, notFound: bool): Outcome
  {
    if Truthy(reply) && reply.value in okCodes then Accepted
    else if Truthy(reply) then
      if notFound && reply.value == 404 then NotFound else ApiError(reply.value)
    else ConnectionFailed
  }

  /** The branches with `elif response is not None`. */
  function Classify(reply: Option<int>, okCodes: set<int>, notFound: bool): Outcome
  {
    if reply.None? then ConnectionFailed
    else if reply.value in okCodes then Accepted
    else if notFound && reply.value == 404 then NotFound
    else ApiError(reply.value)
  }

  /** As written, an error reply is reported as a failure to connect. */
  lemma ErrorRepliesShownAsConnectionFailure(code: int, okCodes: set<int>, notFound: bool)
    requires 400 <= code < 600
    ensures ClassifyAsWritten(Some(code), okCodes, notFound) == ConnectionFailed
  {
  }

  /** As written, the export flow's "not found" message is unreachable: a 404 reply is falsy. */
  lemma ExportNotFoundUnreachable(reply: Option<int>)
    ensures ClassifyAsWritten(reply, ExportCodes, true) != NotFound
    ensures ClassifyAsWritten(Some(404), ExportCodes, true) == ConnectionFailed
  {
  }

  /** Corrected: a failure to connect is reported exactly when no reply arrived, an API error
      carries the reply's code, and success is exactly a success code. */
  lemma ErrorRepliesReported(reply: Option<int>, okCodes: set<int>, notFound: bool)
    ensures Classify(reply, okCodes, notFound) == ConnectionFailed <==> reply.None?
    ensures Classify(reply, okCodes, notFound) == Accepted <==> reply.Some? && reply.value in okCodes
    ensures Classify(reply, okCodes, notFound).ApiError? ==>
              reply == Some(Classify(reply, okCodes, notFound).statusCode) && reply.value !in okCodes
  {
  }

  /** Corrected: the export flow shows "not found" exactly for a 404 reply. */
  lemma ExportNotFoundReported(reply: Option<int>)
    ensures Classify(reply, ExportCodes, true) == NotFound <==> reply == Some(404)
  {
  }

  /** The correction changes only messages: both readings agree on when a flow succeeds (and so on
      when the history is updated), because every success code is below 400. */
  lemma SuccessUnaffected(reply: Option<int>, notFound: bool)
    ensures ClassifyAsWritten(reply, SubmitCodes, notFound) == Accepted <==>
            Classify(reply, SubmitCodes, notFound) == Accepted
    ensures ClassifyAsWritten(reply, StatusCodes, notFound) == Accepted <==>
            Classify(reply, StatusCodes, notFound) == Accepted
  {
  }
}
