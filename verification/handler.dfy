/**
 `handleMessage`: parse the command, answer "/start" with the usage text,
 and for "/check" submit the document to the anti-plagiarism service and
 classify its answer.

 The HTTP exchange is abstract: `server` is the reply the service (and the
 network) gives to a request, and `Endpoint` says whether Go's
 `http.NewRequest` accepts the configured URL. JSON encoding and decoding
 are abstract too: a reply body either decodes to an envelope record or
 does not.
 */
module Handler {
  import opened GoTypes
  import opened Strconv
  import opened Commands
  import Base64

  /** `RequestSecureInfo`: the service login, shared read-only by all requests. */
  datatype Credentials = Credentials(login: Bytes, password: Bytes)

  /** The configured service URL and whether `http.NewRequest` rejects it (with which error). */
  datatype Endpoint = Endpoint(url: Bytes, rejects: Option<Bytes>)

  /** An incoming chat message. */
  datatype Message = Message(chatId: int, messageId: int, text: Bytes)

  /** The IEEE-754 bits of the service's float64 originality rating, carried and never computed. */
  datatype Rating = Rating(bits: bv64)

  /** What a bot reply says. */
  datatype Content =
    | Text(text: Bytes)
    | Failure(error: HandleError)               // err.Error() of a failed handleMessage
    | RatingReport(requestId: Int64, rating: Rating)  // "request id: %d\noriginality rating: %f"

  /** A bot reply, always threaded under the message it answers. */
  datatype Reply = Reply(chatId: int, replyTo: int, content: Content)

  /** The method name of the submit request (`SendFileToCheck`). */
  const SendFileToCheck: Bytes := [0x6C, 0x69, 0x6B, 0x65]  // "like"

  /** `CheckRequest`, flattened: method, document name and base64 body, year, credentials. */
  datatype CheckRequest = CheckRequest(methodName: Bytes, filename: Bytes, body: string, year: Int32, secureInfo: Credentials)

  /** `ErrorResponse`: code 0 means no error. */
  datatype ServerError = ServerError(code: Int32, message: Bytes)

  /** `CheckResponseResponse`. */
  datatype CheckEnvelope = CheckEnvelope(error: ServerError, requestId: Int64)

  /** The outcome of `json.Unmarshal` of a body into an envelope record. */
  datatype Decoded<T> = Undecodable(cause: Bytes) | Decoded(value: T)

  /** The outcome of `ioutil.ReadAll` of a body, then unmarshalling it. */
  datatype Body<T> = ReadFailed(cause: Bytes) | Read(decoded: Decoded<T>)

  /** The outcome of `client.Do` on the submit request. */
  datatype SubmitReply =
    | SubmitTransportFailed(cause: Bytes)
    | SubmitResponse(status: int, body: Body<CheckEnvelope>)

  /** The submit errors, each with the message text the source gives it. */
  datatype SubmitError =
    | RequestNotCreated(cause: Bytes)  // "failed to create request %w"
    | HttpError(cause: Bytes)          // "http error %w"
    | BadStatus                        // "status code != 200"
    | BodyNotRead(cause: Bytes)        // "failed to read body %w"
    | Unparsable(cause: Bytes)         // "couldn't unparse %w"
    | FromServer(message: Bytes)       // "error from server: %s"

  datatype HandleError = CommandFailed(commandError: CommandError) | SubmitFailed(submitError: SubmitError)

  /** A handled message: the reply to send and the ticket to poll (0 for none). */
  datatype Handled = Handled(reply: Reply, requestId: Int64)

  /** "/check year filename text\nExample:\n/check 2022 diplom.txt Hello Exa" */
  const UsageText: Bytes := [
    0x2F, 0x63, 0x68, 0x65, 0x63, 0x6B, 0x20, 0x79, 0x65, 0x61, 0x72, 0x20,
    0x66, 0x69, 0x6C, 0x65, 0x6E, 0x61, 0x6D, 0x65, 0x20, 0x74, 0x65, 0x78, 0x74, 0x0A,
    0x45, 0x78, 0x61, 0x6D, 0x70, 0x6C, 0x65, 0x3A, 0x0A,
    0x2F, 0x63, 0x68, 0x65, 0x63, 0x6B, 0x20, 0x32, 0x30, 0x32, 0x32, 0x20,
    0x64, 0x69, 0x70, 0x6C, 0x6F, 0x6D, 0x2E, 0x74, 0x78, 0x74, 0x20,
    0x48, 0x65, 0x6C, 0x6C, 0x6F, 0x20, 0x45, 0x78, 0x61]

  /**
   The answer to the submit request, checked in the source's order: the
   transport, the status (before the body is touched), reading the body,
   decoding it, the service's error code. Only an answer that passes all
   five yields the service's request id.
   */
  function ClassifySubmit(reply: SubmitReply): (r: Result<Int64, SubmitError>)
    ensures reply.SubmitTransportFailed? ==> r == Err(HttpError(reply.cause))
    ensures reply.SubmitResponse? && reply.status != 200 ==> r == Err(BadStatus)
    ensures r.Ok? <==>
      && reply.SubmitResponse? && reply.status == 200
      && reply.body.Read? && reply.body.decoded.Decoded?
      && reply.body.decoded.value.error.code == 0
    ensures r.Ok? ==> r.value == reply.body.decoded.value.requestId
    ensures r.Err? && r.error.FromServer? <==>
      && reply.SubmitResponse? && reply.status == 200
      && reply.body.Read? && reply.body.decoded.Decoded?
      && reply.body.decoded.value.error.code != 0
    ensures r.Err? && r.error.FromServer? ==> r.error.message == reply.body.decoded.value.error.message
    ensures r == Err(BadStatus) <==> reply.SubmitResponse? && reply.status != 200
    ensures reply.SubmitResponse? && reply.status == 200 && reply.body.ReadFailed? ==>
      r == Err(BodyNotRead(reply.body.cause))
    ensures reply.SubmitResponse? && reply.status == 200 && reply.body.Read? && reply.body.decoded.Undecodable? ==>
      r == Err(Unparsable(reply.body.decoded.cause))
  {
    match reply
    case SubmitTransportFailed(cause) => Err(HttpError(cause))
    case SubmitResponse(status, body) =>
      if status != 200 then Err(BadStatus)
      else match body
        case ReadFailed(cause) => Err(BodyNotRead(cause))
        case Read(Undecodable(cause)) => Err(Unparsable(cause))
        case Read(Decoded(envelope)) =>
          if envelope.error.code != 0 then Err(FromServer(envelope.error.message))
          else Ok(envelope.requestId)
  }

  /** The submit request for a parsed "/check" command. */
  function CheckRequestFor(command: UserCommand, creds: Credentials): (r: CheckRequest)
    ensures r.methodName == SendFileToCheck && r.secureInfo == creds
    ensures r.filename == command.filename && r.body == command.file && r.year == command.year
  {
    CheckRequest(SendFileToCheck, command.filename, command.file, command.year, creds)
  }

  /** The message parses to a "/check" command. */
  predicate IsCheck(msg: Message) {
    GetUserCommand(msg.text).Returned? && GetUserCommand(msg.text).value.command == CommandCheck
  }

  /** The classified answer of the service to the request of a parsed "/check". */
  function SubmitAnswer(creds: Credentials, msg: Message, server: CheckRequest -> SubmitReply): Result<Int64, SubmitError>
    requires IsCheck(msg)
  {
    ClassifySubmit(server(CheckRequestFor(GetUserCommand(msg.text).value, creds)))
  }

  /**
   `handleMessage`. A parse failure or panic is passed on before any
   request is built. "/start" answers with the usage text and ticket 0.
   "/check" builds the request, submits it, and on success echoes the
   message text back with the service's request id.
   */
  function HandleMessage(creds: Credentials, endpoint: Endpoint, msg: Message, server: CheckRequest -> SubmitReply)
    : (r: Outcome<Handled, HandleError>)
    ensures GetUserCommand(msg.text).Panicked? ==> r == Panicked(GetUserCommand(msg.text).reason)
    ensures GetUserCommand(msg.text).Failed? ==> r == Failed(CommandFailed(GetUserCommand(msg.text).error))
    ensures GetUserCommand(msg.text) == Returned(StartCommand) ==>
      r == Returned(Handled(Reply(msg.chatId, msg.messageId, Text(UsageText)), 0))
    ensures r.Returned? && r.value.requestId != 0 ==>
      && GetUserCommand(msg.text).Returned?
      && GetUserCommand(msg.text).value.command == CommandCheck
      && endpoint.rejects.None?
      && ClassifySubmit(server(CheckRequestFor(GetUserCommand(msg.text).value, creds))) == Ok(r.value.requestId)
      && r.value.reply == Reply(msg.chatId, msg.messageId, Text(msg.text))
    ensures r.Returned? ==> r.value.reply.chatId == msg.chatId && r.value.reply.replyTo == msg.messageId
    ensures IsCheck(msg) && endpoint.rejects.Some? ==>
      r == Failed(SubmitFailed(RequestNotCreated(endpoint.rejects.value)))
    ensures IsCheck(msg) && endpoint.rejects.None? && SubmitAnswer(creds, msg, server).Err? ==>
      r == Failed(SubmitFailed(SubmitAnswer(creds, msg, server).error))
    ensures IsCheck(msg) && endpoint.rejects.None? && SubmitAnswer(creds, msg, server).Ok? ==>
      r == Returned(Handled(Reply(msg.chatId, msg.messageId, Text(msg.text)), SubmitAnswer(creds, msg, server).value))
  {
    CommandWordsDiffer();
    match GetUserCommand(msg.text)
    case Panicked(reason) => Panicked(reason)
    case Failed(e) => Failed(CommandFailed(e))
    case Returned(command) =>
      if command.command == CommandStart then
        Returned(Handled(Reply(msg.chatId, msg.messageId, Text(UsageText)), 0))
      else if endpoint.rejects.Some? then
        Failed(SubmitFailed(RequestNotCreated(endpoint.rejects.value)))
      else match ClassifySubmit(server(CheckRequestFor(command, creds)))
        case Err(e) => Failed(SubmitFailed(e))
        case Ok(requestId) => Returned(Handled(Reply(msg.chatId, msg.messageId, Text(msg.text)), requestId))
  }

  // ---------------------------------------------------------------------
  // Properties

  /** With a status other than 200 the body is never looked at. */
  lemma StatusBeforeBody(status: int, b1: Body<CheckEnvelope>, b2: Body<CheckEnvelope>)
    requires status != 200
    ensures ClassifySubmit(SubmitResponse(status, b1)) == ClassifySubmit(SubmitResponse(status, b2)) == Err(BadStatus)
  {
  }

  /**
   A message that is not a well-formed "/check" never reaches the
   service: the outcome is the same whatever the service would answer.
   */
  lemma NoSubmitWithoutCheck(creds: Credentials, endpoint: Endpoint, msg: Message,
                             server1: CheckRequest -> SubmitReply, server2: CheckRequest -> SubmitReply)
    requires !(GetUserCommand(msg.text).Returned? && GetUserCommand(msg.text).value.command == CommandCheck)
    ensures HandleMessage(creds, endpoint, msg, server1) == HandleMessage(creds, endpoint, msg, server2)
  {
  }

  /**
   The request a "/check" sends carries the filename token, the base64 of
   the document tokens rejoined, the year read and truncated, the "like"
   method and the credentials; decoding its body gives the document back.
   */
  lemma SubmittedRequest(creds: Credentials, year: Bytes, filename: Bytes, words: seq<Bytes>)
    requires Strings.Excludes(year, Space) && Strings.Excludes(filename, Space)
    requires Strings.PiecesExclude(words, Space)
    requires Atoi(year).Ok?
    ensures var text := Strings.Join([CommandCheck, year, filename] + words, Space);
      && GetUserCommand(text).Returned?
      && var request := CheckRequestFor(GetUserCommand(text).value, creds);
      && request.methodName == SendFileToCheck
      && request.filename == filename
      && request.year == ToInt32(Atoi(year).value)
      && request.secureInfo == creds
      && Base64.Decode(request.body) == Some(Strings.Join(words, Space))
  {
    CheckCommandOf(year, filename, words);
    Base64.RoundTrip(Strings.Join(words, Space));
  }

  /** The usage example's request: {"filename":"diplom.txt","body":"SGVsbG8gRXhh"}, year 2022. */
  lemma UsageExampleRequest(creds: Credentials)
    ensures var text := Strings.Join([
        CommandCheck,
        [0x32, 0x30, 0x32, 0x32],
        [0x64, 0x69, 0x70, 0x6C, 0x6F, 0x6D, 0x2E, 0x74, 0x78, 0x74],
        [0x48, 0x65, 0x6C, 0x6C, 0x6F],
        [0x45, 0x78, 0x61]], Space);
      && GetUserCommand(text).Returned?
      && CheckRequestFor(GetUserCommand(text).value, creds) == CheckRequest(
           SendFileToCheck, [0x64, 0x69, 0x70, 0x6C, 0x6F, 0x6D, 0x2E, 0x74, 0x78, 0x74],
           "SGVsbG8gRXhh", 2022, creds)
  {
    UsageExample();
  }
}
