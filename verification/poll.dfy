/**
 `pollResult`: ask the service for the rating of an accepted submission,
 up to `RetryCount` times, and reply with the first rating the service
 reports without error, or with "couldn't get result" when none of the
 attempts gives one.

 The request is built once and sent on every attempt; `service` gives,
 for a poll request, the answers the successive attempts receive. The
 ten-second pause before each attempt and the goroutine the poll runs
 in are not modelled. The body of a poll answer is read with its read
 error ignored, so a body is just decodable or not.
 */
module Poll {
  import opened GoTypes
  import opened Handler

  /** `retryCount`. */
  const RetryCount: nat := 5

  /** The method name of the poll request (`PollForResult`). */
  const PollForResult: Bytes := [0x67, 0x65, 0x74, 0x72, 0x65, 0x73, 0x75, 0x6C, 0x74]  // "getresult"

  /** The result format the poll request asks for. */
  const ResultFormat: Bytes := [0x6A, 0x73, 0x6F, 0x6E]  // "json"

  /** `PollRequest`, flattened: method, ticket, format, credentials. */
  datatype PollRequest = PollRequest(methodName: Bytes, requestId: Int64, format: Bytes, secureInfo: Credentials)

  /** `PollResponseResponse`, with the rating of `PollResponseResult`. */
  datatype PollEnvelope = PollEnvelope(error: ServerError, rating: Rating)

  /** The outcome of `client.Do` on one poll attempt. */
  datatype PollReply =
    | PollTransportFailed(cause: Bytes)
    | PollResponse(status: int, decoded: Decoded<PollEnvelope>)

  /** "couldn't get result" */
  const NoResultText: Bytes := [
    0x63, 0x6F, 0x75, 0x6C, 0x64, 0x6E, 0x27, 0x74, 0x20, 0x67, 0x65, 0x74, 0x20,
    0x72, 0x65, 0x73, 0x75, 0x6C, 0x74]

  /** The poll request for a ticket (`PollRequest` as built by `pollResult`). */
  function PollRequestFor(requestId: Int64, creds: Credentials): (r: PollRequest)
    ensures r.methodName == PollForResult && r.format == ResultFormat
    ensures r.requestId == requestId && r.secureInfo == creds
  {
    PollRequest(PollForResult, requestId, ResultFormat, creds)
  }

  /** The answers the successive attempts receive to the poll request of a ticket. */
  function Answers(requestId: Int64, creds: Credentials, service: PollRequest -> seq<PollReply>): seq<PollReply> {
    service(PollRequestFor(requestId, creds))
  }

  /** An attempt that ends the loop: status 200, a decodable body, error code 0. */
  predicate Accepted(reply: PollReply) {
    reply.PollResponse? && reply.status == 200 && reply.decoded.Decoded? && reply.decoded.value.error.code == 0
  }

  /**
   Reference definition: the index of the first accepted answer among the
   first n, or n when there is none.
   */
  function FirstAccepted(replies: seq<PollReply>, n: nat): (k: nat)
    requires n <= |replies|
    ensures k <= n
    ensures k < n ==> Accepted(replies[k])
    ensures forall j | 0 <= j < k :: !Accepted(replies[j])
    decreases n
  {
    if n == 0 then 0
    else if Accepted(replies[0]) then 0
    else 1 + FirstAccepted(replies[1..], n - 1)
  }

  /**
   The retry loop. It makes at most `RetryCount` attempts, stops at the
   first accepted answer and returns its rating; an answer that fails in
   transport, status, decoding or error code leads to the next attempt.
   */
  method PollLoop(replies: seq<PollReply>) returns (attempts: nat, rating: Option<Rating>)
    requires |replies| >= RetryCount
    ensures 1 <= attempts <= RetryCount
    ensures forall j | 0 <= j < attempts - 1 :: !Accepted(replies[j])
    ensures rating.Some? <==> Accepted(replies[attempts - 1])
    ensures rating.Some? ==> rating.value == replies[attempts - 1].decoded.value.rating
    ensures rating.None? ==> attempts == RetryCount
    ensures rating.Some? <==> FirstAccepted(replies, RetryCount) < RetryCount
    ensures rating.Some? ==> attempts == FirstAccepted(replies, RetryCount) + 1
  {
    attempts := 0;
    while attempts < RetryCount
      invariant attempts <= RetryCount
      invariant forall j | 0 <= j < attempts :: !Accepted(replies[j])
    {
      var reply := replies[attempts];
      attempts := attempts + 1;
      if reply.PollTransportFailed? {
        continue;
      }
      if reply.status != 200 {
        continue;
      }
      if reply.decoded.Undecodable? {
        continue;
      }
      if reply.decoded.value.error.code != 0 {
        continue;
      }
      FirstAcceptedIs(replies, RetryCount, attempts - 1);
      return attempts, Some(reply.decoded.value.rating);
    }
    FirstAcceptedNone(replies, RetryCount);
    return attempts, None;
  }

  /** An accepted answer preceded only by unaccepted ones is the first. */
  lemma FirstAcceptedIs(replies: seq<PollReply>, n: nat, k: nat)
    requires k < n <= |replies|
    requires Accepted(replies[k])
    requires forall j | 0 <= j < k :: !Accepted(replies[j])
    ensures FirstAccepted(replies, n) == k
  {
  }

  /** With no accepted answer among the first n, the search reports n. */
  lemma FirstAcceptedNone(replies: seq<PollReply>, n: nat)
    requires n <= |replies|
    requires forall j | 0 <= j < n :: !Accepted(replies[j])
    ensures FirstAccepted(replies, n) == n
  {
  }

  /** What a poll goroutine does: crash, or make some attempts and send one reply. */
  datatype WorkerResult = Crashed(reason: PanicReason) | Finished(attempts: nat, reply: Reply)

  /** The outcome of `pollResult` as a function, stated through the reference search. */
  function PollOutcome(requestId: Int64, endpoint: Endpoint, msg: Message, replies: seq<PollReply>): WorkerResult
    requires |replies| >= RetryCount
  {
    if endpoint.rejects.Some? then Crashed(NilDereference)
    else
      var k := FirstAccepted(replies, RetryCount);
      if k < RetryCount then
        Finished(k + 1, Reply(msg.chatId, msg.messageId, RatingReport(requestId, replies[k].decoded.value.rating)))
      else
        Finished(RetryCount, Reply(msg.chatId, msg.messageId, Text(NoResultText)))
  }

  /**
   The whole `pollResult`. If `http.NewRequest` rejects the endpoint the
   source goes on to set a header on the nil request, a nil dereference.
   Otherwise it replies under the original message with the ticket and
   rating of the first accepted answer, or with "couldn't get result".
   */
  method PollResult(requestId: Int64, creds: Credentials, endpoint: Endpoint, msg: Message,
                    service: PollRequest -> seq<PollReply>)
    returns (r: WorkerResult)
    requires |Answers(requestId, creds, service)| >= RetryCount
    ensures endpoint.rejects.Some? <==> r == Crashed(NilDereference)
    ensures r.Finished? ==> r.reply.chatId == msg.chatId && r.reply.replyTo == msg.messageId
    ensures r.Finished? ==> 1 <= r.attempts <= RetryCount
    ensures r.Finished? && r.reply.content.RatingReport? ==>
      && r.reply.content.requestId == requestId
      && Accepted(Answers(requestId, creds, service)[r.attempts - 1])
      && r.reply.content.rating == Answers(requestId, creds, service)[r.attempts - 1].decoded.value.rating
      && forall j | 0 <= j < r.attempts - 1 :: !Accepted(Answers(requestId, creds, service)[j])
    ensures r.Finished? && !r.reply.content.RatingReport? ==>
      && r.attempts == RetryCount
      && r.reply.content == Text(NoResultText)
      && forall j | 0 <= j < RetryCount :: !Accepted(Answers(requestId, creds, service)[j])
    ensures r == PollOutcome(requestId, endpoint, msg, Answers(requestId, creds, service))
  {
    if endpoint.rejects.Some? {
      return Crashed(NilDereference);
    }
    var replies := Answers(requestId, creds, service);
    var attempts, rating := PollLoop(replies);
    match rating
    case Some(value) =>
      return Finished(attempts, Reply(msg.chatId, msg.messageId, RatingReport(requestId, value)));
    case None =>
      return Finished(attempts, Reply(msg.chatId, msg.messageId, Text(NoResultText)));
  }

  /** Answers after the first accepted one are never looked at. */
  lemma StopsAtFirstAccepted(requestId: Int64, endpoint: Endpoint, msg: Message, replies: seq<PollReply>, k: nat, later: seq<PollReply>)
    requires |replies| >= RetryCount
    requires k < RetryCount && Accepted(replies[k])
    requires |later| >= RetryCount && later[..k + 1] == replies[..k + 1]
    ensures PollOutcome(requestId, endpoint, msg, later) == PollOutcome(requestId, endpoint, msg, replies)
  {
    var f := FirstAccepted(replies, RetryCount);
    assert f <= k;
    forall j | 0 <= j <= f ensures later[j] == replies[j] {
      assert later[..k + 1][j] == replies[..k + 1][j];
    }
    FirstAcceptedIs(later, RetryCount, f);
  }
}
