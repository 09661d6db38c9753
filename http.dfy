/**
 * The HTTP GET the exporter performs on the manifest and on every shard, seen
 * only at its boundary: a fetch maps a URL to the response it got.
 */
module Http {
  import opened Outcomes
  import opened Lines

  /** What one GET produced: a status code and the body read as text, or a
      failure before any response arrived. */
  datatype HttpResponse = Response(statusCode: int, body: string) | TransportFailure(reason: string)

  /** The transfer capability: the response a GET of each URL produces. */
  type Fetch = string -> HttpResponse

  /** `HttpResponseMessage.IsSuccessStatusCode`: a status in 200..299. */
  predicate IsSuccessStatusCode(statusCode: int)
  {
    200 <= statusCode <= 299
  }

  /** The lines of a fetched text file, as the index and shard downloads read
      them: a non-success status or a failed transfer is an error for that
      resource, otherwise the body is split on '\n'. */
  function ReadLines(response: HttpResponse, resource: Resource): (r: Result<seq<string>>)
    ensures r.Ok? <==> response.Response? && IsSuccessStatusCode(response.statusCode)
    ensures response.Response? && !IsSuccessStatusCode(response.statusCode) ==>
              r == Err(HttpStatusFailed(resource, response.statusCode))
    ensures response.TransportFailure? ==> r == Err(TransportFailed(resource, response.reason))
    ensures r.Ok? ==> r.value == Split(response.body)
  {
    match response
    case TransportFailure(reason) => Err(TransportFailed(resource, reason))
    case Response(statusCode, body) =>
      if !IsSuccessStatusCode(statusCode) then Err(HttpStatusFailed(resource, statusCode))
      else Ok(Split(body))
  }

  /** The lines read from a successful response are newline-free, there is at
      least one of them, and joining them gives back the body exactly. */
  lemma ReadLinesLossless(response: HttpResponse, resource: Resource)
    ensures var r := ReadLines(response, resource);
            r.Ok? ==> |r.value| >= 1 && NewlineFree(r.value) && Join(r.value) == response.body
  {
    if response.Response? {
      JoinSplit(response.body);
      SplitNewlineFree(response.body);
    }
  }
}
