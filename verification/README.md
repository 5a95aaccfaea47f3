# plague-bot in Dafny

A model of the Telegram bot `plague-bot` (`main.go`), which forwards a
document typed into a chat to an anti-plagiarism web service and reports
the originality rating the service computes.

The bot reads chat updates in a loop. A message is split on single spaces
and its first token must be `/start` or `/check`:

- `/start` is answered with a usage text and nothing is sent to the service.
- `/check <year> <filename> <words...>` reads the year with `strconv.Atoi`
  and truncates it to `int32`, joins the words again with single spaces,
  encodes that text as padded standard base64 (section 4 of RFC 4648), and
  submits `{method "like", filename, body, year, credentials}` to the service.
  The service's answer is checked in order: transport error, status other
  than 200, unreadable body, undecodable body, non-zero error code. On
  success the bot echoes the message text and, when the ticket (request id)
  is not 0, starts a poll for it.
- The poll asks the service for the rating up to 5 times and replies with
  the first rating reported without error, or "couldn't get result".

Every reply is sent under the message it answers; a failure is answered
with one reply holding the error. The parser checks no token counts:
`/check` alone and `/check <year>` with a readable year make the Go runtime
panic (an index and a slice past the end of the tokens), and an unrecovered
panic in the loop stops the bot. The model states these panics as a third
kind of outcome, `Panicked`, next to returning and failing.

In these places the code is looser or stricter than its usage text
suggests, and the model follows the code:

- tokens are separated by single spaces (`strings.Split`), not by runs of
  whitespace, so two spaces in a row give an empty token;
- no token count is checked, so short `/check` messages panic instead of
  being rejected, and `/check <year> <filename>` with no words is accepted
  and submits an empty document;
- the year is read as a 64-bit integer and then truncated to 32 bits, so a
  year outside the `int32` range is accepted with a wrapped value instead
  of being rejected;
- a status other than 200 is reported without the status code.

Modules, one file each:

- `GoTypes` (`gotypes.dfy`): byte strings, `int32`/`int64` ranges, Go's
  truncating `int32(...)`, and the `Result` and `Outcome` shapes of a Go call.
- `Strings` (`strings.dfy`): `strings.Split` and `strings.Join` on one
  separator byte.
- `Strconv` (`strconv.dfy`): `strconv.Atoi` on a 64-bit platform, with a
  reference meaning (sign plus decimal digits) it is proved against.
- `Base64` (`base64.dfy`): padded standard base64 encoding and a reference
  decoder.
- `Commands` (`commands.dfy`): `getCommands`, `contains`, `getUserCommand`.
- `Handler` (`handler.dfy`): `handleMessage` with the service as a parameter.
- `Poll` (`poll.dfy`): `pollResult` and its retry loop.
- `Dispatch` (`dispatch.dfy`): one iteration of the update loop, and the loop
  over a run of updates.

The service, the network and the chat are parameters: the submit answer is
a function of the request, the poll answers are a function of the poll
request giving the answers in the order the attempts receive them, and
whether `http.NewRequest` accepts the
configured URL is part of the `Endpoint` value.

## Model

| member | source | states |
|---|---|---|
| GoTypes.ToInt32 | main.go:183 | `int32(year)` keeps the low 32 bits: the result is an int32 congruent to the input modulo 2^32, and equal to it when it is already in range |
| Strings.Join | main.go:179 | joining separator-free pieces puts exactly one separator in each gap: the result holds one separator fewer than there are pieces |
| Strings.Split | main.go:163 | the pieces of a split are at least one, contain no separator, and join back to the original text |
| Strings.SplitJoin | main.go:163 | splitting the join of separator-free pieces gives back exactly those pieces |
| Strings.SplitCount | main.go:163 | a text splits into one more piece than it has separators |
| Strings.SplitCons | main.go:163 | a separator-free first piece followed by a separator comes off as the first token, whatever follows |
| Strconv.Atoi | main.go:174-177 | the error Atoi returns names the whole token it was given |
| Strconv.AtoiMeaning | main.go:174-177 | Atoi succeeds exactly on an optional sign followed by one or more decimal digits whose value lies in the int64 range, and then returns that value |
| Strconv.AtoiRangeError | main.go:174-177 | a well-formed number outside the int64 range is a range error naming the token |
| Strconv.AtoiSyntaxError | main.go:174-177 | a malformed token of at most 20 bytes is a syntax error naming the token |
| Strconv.AtoiMalformed | main.go:174-177 | a malformed token fails at its first bad byte: a syntax error, unless the digits before it already overflow 64 unsigned bits, when it is a range error |
| Base64.Encode | main.go:179 | the encoding of n bytes has 4 * ceil(n / 3) characters, each from the base64 alphabet or the padding character |
| Base64.RoundTrip | main.go:179 | decoding the encoding of any bytes gives those bytes back, so the document reaches the service unchanged; the decoder rejects a last group whose unused bits are not zero (section 3.5 of RFC 4648), so the encoder's zero pad bits are part of what the round trip pins |
| Base64.HelloEncoding | main.go:179 | a padded example: the five bytes "Hello" encode as "SGVsbG8=", one pad character and zero bits in the unused low end of "8" |
| Base64.HelloExaEncoding | main.go:196 | the document of the usage example, "Hello Exa", encodes as "SGVsbG8gRXhh" |
| Commands.Contains | main.go:323-331 | the scan reports true exactly when the term occurs in the list, however often |
| Commands.GetCommands | main.go:316-321 | the command words are exactly "/start" and "/check" |
| Commands.Tokens | main.go:163 | a message has at least one token, no token contains a space, and the tokens rejoined with spaces are the message |
| Commands.GetUserCommand | main.go:162-188 | "incorrect command" exactly when the first token is not a command word; `/start` gives the zero command; a panic exactly for `/check` with one token, or two tokens and a readable year; Atoi's own error, kind and input unchanged, exactly for `/check` with an unreadable year; otherwise year, filename and decodable file come from tokens 1, 2 and 3 onward |
| Commands.StartIgnoresRest | main.go:168-173 | `/start` followed by a space and anything gives the zero start command |
| Commands.CheckCommandOf | main.go:174-187 | a message `/check Y F W1 ... Wn` of space-free tokens gives Atoi's error on Y, or the command with year int32(Atoi(Y)), filename F and file the base64 of "W1 ... Wn" |
| Commands.CheckTokens | main.go:163 | such a message splits into exactly the tokens it was built from |
| Commands.ShortCheckPanics | main.go:174-184 | `/check` alone, and `/check Y` with a readable Y, panic |
| Commands.UsageExample | main.go:162-188 | the usage example `/check 2022 diplom.txt Hello Exa` parses to year 2022, filename "diplom.txt" and file "SGVsbG8gRXhh" |
| Handler.CheckRequestFor | main.go:200-213 | the submit request carries method "like", the command's filename, base64 file and year as doc.filename, doc.body and parameters.year, and the credentials as secureinfo |
| Handler.ClassifySubmit | main.go:224-250 | the submit answer succeeds exactly with status 200, a readable and decodable body and error code 0, and then yields the service's request id; a transport failure comes first and reports its cause; the answer is "bad status" exactly for a response whose status is not 200; with status 200 an unreadable body reports its read error and an undecodable one its decoding error; a non-zero code reports the service's message unchanged |
| Handler.HandleMessage | main.go:190-251 | parse panics and errors pass through; `/start` answers with the usage text and ticket 0; for a parsed `/check`: a rejected endpoint fails with "failed to create request", an error answer fails with that submit error, and an accepted answer echoes the message text with the service's ticket; a ticket other than 0 only comes from such an accepted `/check`; every reply goes to the sender's chat under their message |
| Handler.StatusBeforeBody | main.go:230-237 | with a status other than 200 the body makes no difference |
| Handler.NoSubmitWithoutCheck | main.go:190-199 | a message that is not a parsed `/check` gets the same outcome whatever the service would answer: nothing is submitted |
| Handler.SubmittedRequest | main.go:200-214 | the submit request of `/check Y F W1 ... Wn` carries method "like", filename F, year int32(Atoi(Y)), the credentials, and a body that decodes to "W1 ... Wn" |
| Handler.UsageExampleRequest | main.go:200-214 | the usage example submits filename "diplom.txt", body "SGVsbG8gRXhh" and year 2022 |
| Poll.FirstAccepted | main.go:275-308 | reference search: the index of the first accepted poll answer among the first n, or n; all answers before it are not accepted |
| Poll.PollLoop | main.go:275-308 | the loop makes 1 to 5 attempts, stops at the first accepted answer and returns its rating, gives up only after 5 unaccepted answers, and agrees with the reference search |
| Poll.PollRequestFor | main.go:254-264 | the poll request carries method "getresult", the ticket, format "json" and the credentials |
| Poll.PollResult | main.go:253-314 | the answers are those the service gives to the one poll request built for the ticket; a rejected endpoint is a nil-dereference crash; otherwise one reply under the original message, with the ticket and the rating of the first accepted answer, or "couldn't get result" after 5 unaccepted ones; equal to the reference outcome |
| Poll.StopsAtFirstAccepted | main.go:293-307 | answers after the first accepted one do not change the outcome |
| Dispatch.HandleUpdate | main.go:141-158 | an update without a message does nothing; a crash exactly when parsing panics; otherwise one reply to the sender, and a poll only for a ticket other than 0 after an echo |
| Dispatch.PollIffAccepted | main.go:145-157 | a poll starts exactly when a parsed `/check` was submitted and accepted with a ticket other than 0, and it polls that ticket |
| Dispatch.ErrorIsReplied | main.go:146-151 | a failed message is answered with one reply holding the error, and no poll starts |
| Dispatch.SubmitErrorIsReplied | main.go:146-151 | a `/check` whose request cannot be created, or whose answer is an error, is answered with one reply holding that submit error, and no poll starts |
| Dispatch.StartNeverPolls | main.go:195-198 | `/start` with anything after it is answered with the usage text and never polled |
| Dispatch.AcceptedTicketZero | main.go:153-157 | a `/check` accepted with ticket 0 is echoed but not polled |
| Dispatch.StartedPollFinishes | main.go:266-271 | a poll only starts for an endpoint `http.NewRequest` accepted, so the poll's nil dereference cannot happen and it always replies |
| Dispatch.PollsOf | main.go:155-157 | an iteration starts at most one poll per reply, never for ticket 0 |
| Dispatch.Run | main.go:141-159 | the loop records a crash exactly when some update panics; it sends at most one reply per update and at most one poll per reply, all for tickets other than 0 |
| Dispatch.RunPollsStarted | main.go:141-159 | every poll the loop records was started by one of the updates, for that update's message and ticket |
| Dispatch.RunPollsRecorded | main.go:141-159 | in a run without a crash, every poll an update starts is recorded |
| Dispatch.RunRepliesInOrder | main.go:141-159 | in a run of messages without a crash, the loop sends one reply per message, in arrival order, each the reply of that message's own iteration |
| Dispatch.CrashStopsTheLoop | main.go:141-159 | updates after a panicking one make no difference: the bot is gone |
| Dispatch.Then | main.go:141-159 | the trace of more updates handled after a trace: after a crash nothing changes; otherwise the replies and polls of the first come first, followed by those of the second, whose crash is the crash of the whole |
| Dispatch.ThenAssoc | main.go:141-159 | handling three stretches of updates one after another does not depend on how they are grouped |
| Dispatch.RunSplitFirst | main.go:141-159 | one iteration of the loop: the trace of a nonempty sequence of updates is that of its first update followed by that of the rest |
| Dispatch.RunAppend | main.go:141-159 | the trace of a concatenation of updates is the trace of the first part followed by the trace of the second part handled alone: the loop keeps no state between updates |
| Dispatch.RunAppendTrace | main.go:141-159 | spelled out: a prefix without a panic contributes its replies and polls first, then the rest runs as if alone; a prefix that panics is the whole trace |

## Left out

- The Telegram API (`tgbotapi`): receiving updates, sending messages, the
  debug log and the logging of each message. Updates and replies are values.
- Loading `secret.json` and the bot token; the credentials and the service
  URL are parameters. Its `log.Panic` paths happen before the loop starts.
- HTTP: building requests beyond whether `http.NewRequest` accepts the URL,
  the Content-Type header, `client.Do`, closing bodies. The service's
  answers are parameters.
- JSON: `json.Marshal` of the request records cannot fail for these struct
  types (strings, integers and nested structs only), so the "couldn't parse
  request to json" path and pollResult's silent return on a marshal error
  are not modelled. `json.Unmarshal` is abstract: an answer either decodes
  to the envelope record or does not. The envelope key is spelt "reponse" in
  the code; a body that decodes but lacks that key leaves every field zero,
  which the model covers as a decoded envelope with code 0 and ticket 0.
- The text of errors and replies: an error reply carries the error value,
  not `err.Error()` (`fmt.Errorf` wrapping, `strconv.Quote` in Atoi's
  message), and a rating reply carries the ticket and the rating, not the
  `%f` formatting of the float64, which is carried as its IEEE-754 bits and
  never computed.
- The ten-second sleep before each poll attempt and the goroutine a poll
  runs in; `Dispatch.Run` records which polls start, not when their replies
  arrive relative to later updates.
- Poll.PollResult: the same request value is sent on every attempt, and its
  body is consumed by the first `client.Do`; what later attempts then send
  is left to the service's answers, which are inputs.
- Poll.PollLoop: the read error of a poll answer's body is ignored by the
  code, so a poll answer is modelled as decodable or not, with no separate
  read failure.
- Strconv.AtoiSyntaxError: stated only for tokens of at most 20 bytes; for
  longer malformed tokens the kind of error is stated by
  Strconv.AtoiMalformed instead.
- Strings.Split: modelled for a one-byte separator only, the only kind the
  bot uses.
