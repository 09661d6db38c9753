/**
 * Waiting for a segment export to finish: each export-status answer is mapped
 * to an index URL, and the status is asked again until that URL is non-empty.
 * The remote service is a finite sequence of the answers it gives, in order.
 */
module Polling {
  import opened Outcomes

  /** One answer of the export-status call: an error payload, or the export's
      state together with the index URL it reports. */
  datatype StatusResponse = StatusError(message: string) | StatusReport(state: string, indexUrl: string)

  /** The state the service reports for a finished export. */
  const CompleteState: string := "Complete"

  /** An answer that ends the wait with an index URL. */
  predicate IsReady(response: StatusResponse)
  {
    response.StatusReport? && response.state == CompleteState && response.indexUrl != ""
  }

  /** An answer after which the status is asked again: any state other than
      complete, and also a complete state that reports an empty URL. */
  predicate IsPending(response: StatusResponse)
  {
    response.StatusReport? && !IsReady(response)
  }

  /** The index URL one status answer yields: the reported URL when the export
      is complete, the empty string for any other state, an error for an error
      payload. */
  function IndexUrl(response: StatusResponse): (r: Result<string>)
    ensures r.Err? <==> response.StatusError?
    ensures response.StatusError? ==> r.error == StatusQueryFailed(response.message)
    ensures r.Ok? ==> (r.value != "" <==> IsReady(response))
    ensures r.Ok? && r.value != "" ==> r.value == response.indexUrl
    ensures response.StatusReport? && response.state != CompleteState ==> r == Ok("")
  {
    match response
    case StatusError(message) => Err(StatusQueryFailed(message))
    case StatusReport(state, indexUrl) => if state == CompleteState then Ok(indexUrl) else Ok("")
  }

  /** The position of the first answer that ends the wait (ready or error), or
      the number of answers when every one of them is pending. */
  function FirstSettled(responses: seq<StatusResponse>): (k: nat)
    ensures k <= |responses|
    ensures forall i :: 0 <= i < k ==> IsPending(responses[i])
    ensures k < |responses| ==> !IsPending(responses[k])
  {
    if responses == [] || !IsPending(responses[0]) then 0
    else 1 + FirstSettled(responses[1..])
  }

  /** How a wait ends: with an index URL, with the error of a status call, or,
      once the finite answer sequence is used up, still pending. */
  datatype PollOutcome = Ready(indexUrl: string) | Failed(error: Error) | StillPending

  /** The outcome the wait must reach on `responses`. */
  function ExpectedPoll(responses: seq<StatusResponse>): PollOutcome
  {
    var k := FirstSettled(responses);
    if k == |responses| then StillPending
    else match responses[k]
      case StatusError(message) => Failed(StatusQueryFailed(message))
      case StatusReport(_, indexUrl) => Ready(indexUrl)
  }

  /** The number of status calls the wait must make on `responses`. */
  function ExpectedCalls(responses: seq<StatusResponse>): nat
  {
    var k := FirstSettled(responses);
    if k == |responses| then k else k + 1
  }

  /** The wait loop: asks for the status, answer after answer, until an index
      URL is non-empty; an error answer ends it at once. */
  method AwaitIndexUrl(responses: seq<StatusResponse>) returns (outcome: PollOutcome, calls: nat)
    ensures outcome == ExpectedPoll(responses) && calls == ExpectedCalls(responses)
    ensures outcome.Ready? ==> outcome.indexUrl != ""
  {
    var indexUrl := "";
    calls := 0;
    while indexUrl == ""
      invariant calls <= |responses|
      invariant indexUrl == "" ==> forall i :: 0 <= i < calls ==> IsPending(responses[i])
      invariant indexUrl != "" ==>
        && 1 <= calls
        && (forall i :: 0 <= i < calls - 1 ==> IsPending(responses[i]))
        && IsReady(responses[calls - 1])
        && indexUrl == responses[calls - 1].indexUrl
      decreases |responses| - calls
    {
      if calls == |responses| {
        outcome := StillPending;
        return;
      }
      var r := IndexUrl(responses[calls]);
      calls := calls + 1;
      if r.Err? {
        outcome := Failed(r.error);
        return;
      }
      indexUrl := r.value;
    }
    outcome := Ready(indexUrl);
  }

  /** Answers after the one that ends the wait are never asked for: extending
      the answer sequence changes neither the outcome nor the number of calls. */
  lemma {:induction false} PollIgnoresLaterAnswers(responses: seq<StatusResponse>, later: seq<StatusResponse>)
    requires FirstSettled(responses) < |responses|
    ensures ExpectedPoll(responses + later) == ExpectedPoll(responses)
    ensures ExpectedCalls(responses + later) == ExpectedCalls(responses)
    decreases |responses|
  {
    assert (responses + later)[0] == responses[0];
    if IsPending(responses[0]) {
      assert (responses + later)[1..] == responses[1..] + later;
      PollIgnoresLaterAnswers(responses[1..], later);
    }
  }

  /** The wait ends with a URL exactly when some answer is ready and every
      answer before it is pending; the URL is that answer's. */
  lemma ReadyIff(responses: seq<StatusResponse>, k: nat, url: string)
    ensures (ExpectedPoll(responses) == Ready(url) && ExpectedCalls(responses) == k + 1) <==>
            (k < |responses| && (forall i :: 0 <= i < k ==> IsPending(responses[i]))
             && IsReady(responses[k]) && responses[k].indexUrl == url)
  {
  }

  /** An error answer ends the wait with that error, after exactly as many calls
      as answers up to and including it, provided every earlier answer was pending. */
  lemma ErrorStopsAtOnce(responses: seq<StatusResponse>, k: nat)
    requires k < |responses| && responses[k].StatusError?
    requires forall i :: 0 <= i < k ==> IsPending(responses[i])
    ensures ExpectedPoll(responses) == Failed(StatusQueryFailed(responses[k].message))
    ensures ExpectedCalls(responses) == k + 1
  {
  }

  /** Two pending answers, then a complete one: three calls, and the URL of the third. */
  lemma TwoPendingThenComplete(url: string)
    requires url != ""
    ensures var responses := [StatusReport("Pending", ""), StatusReport("Pending", ""), StatusReport(CompleteState, url)];
            ExpectedPoll(responses) == Ready(url) && ExpectedCalls(responses) == 3
  {
    var responses := [StatusReport("Pending", ""), StatusReport("Pending", ""), StatusReport(CompleteState, url)];
    ReadyIff(responses, 2, url);
  }
}
