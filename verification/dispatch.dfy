/**
 The main update loop: every update that carries a message is handled;
 an error becomes one reply holding the error's text, a success sends the
 handled reply and, when the ticket is not 0, starts a poll for it. A
 panic in the handler ends the loop, and with it the bot.
 */
module Dispatch {
  import opened GoTypes
  import opened Commands
  import opened Handler
  import Poll

  /** A chat update; only its message, if any, matters. */
  datatype Update = Update(message: Option<Message>)

  /** What the loop does with one update: replies sent and a poll started, or a crash. */
  datatype Step = Step(sent: seq<Reply>, poll: Option<Int64>) | Crash(reason: PanicReason)

  /** One iteration of the update loop. */
  function HandleUpdate(creds: Credentials, endpoint: Endpoint, update: Update, server: CheckRequest -> SubmitReply)
    : (r: Step)
    ensures update.message.None? ==> r == Step([], None)
    ensures r.Crash? <==> update.message.Some? && GetUserCommand(update.message.value.text).Panicked?
    ensures r.Step? && update.message.Some? ==>
      && |r.sent| == 1
      && r.sent[0].chatId == update.message.value.chatId
      && r.sent[0].replyTo == update.message.value.messageId
    ensures r.Step? && r.poll.Some? ==> r.poll.value != 0 && r.sent[0].content == Text(update.message.value.text)
  {
    match update.message
    case None => Step([], None)
    case Some(msg) =>
      match HandleMessage(creds, endpoint, msg, server)
      case Panicked(reason) => Crash(reason)
      case Failed(e) => Step([Reply(msg.chatId, msg.messageId, Failure(e))], None)
      case Returned(handled) =>
        Step([handled.reply], if handled.requestId != 0 then Some(handled.requestId) else None)
  }

  // ---------------------------------------------------------------------
  // Properties of one iteration

  /**
   A poll starts exactly when the message was a "/check" that the service
   accepted with a ticket other than 0, and the poll is for that ticket.
   */
  lemma PollIffAccepted(creds: Credentials, endpoint: Endpoint, msg: Message, server: CheckRequest -> SubmitReply)
    ensures var r := HandleUpdate(creds, endpoint, Update(Some(msg)), server);
      var command := GetUserCommand(msg.text);
      r.Step? && r.poll.Some? <==>
        && command.Returned? && command.value.command == CommandCheck
        && endpoint.rejects.None?
        && var answer := ClassifySubmit(server(CheckRequestFor(command.value, creds)));
        && answer.Ok? && answer.value != 0
    ensures var r := HandleUpdate(creds, endpoint, Update(Some(msg)), server);
      r.Step? && r.poll.Some? ==>
        ClassifySubmit(server(CheckRequestFor(GetUserCommand(msg.text).value, creds))) == Ok(r.poll.value)
  {
    var command := GetUserCommand(msg.text);
    if command.Returned? && command.value.command == CommandCheck {
      CommandWordsDiffer();
    }
  }

  /** Every error is answered with one reply to the sender, and no poll starts. */
  lemma ErrorIsReplied(creds: Credentials, endpoint: Endpoint, msg: Message, server: CheckRequest -> SubmitReply)
    requires HandleMessage(creds, endpoint, msg, server).Failed?
    ensures HandleUpdate(creds, endpoint, Update(Some(msg)), server)
      == Step([Reply(msg.chatId, msg.messageId, Failure(HandleMessage(creds, endpoint, msg, server).error))], None)
  {
  }

  /**
   A "/check" whose request cannot be created, or whose answer is an error,
   is answered with one reply holding that submit error, and no poll starts.
   */
  lemma SubmitErrorIsReplied(creds: Credentials, endpoint: Endpoint, msg: Message, server: CheckRequest -> SubmitReply)
    requires IsCheck(msg)
    ensures endpoint.rejects.Some? ==>
      HandleUpdate(creds, endpoint, Update(Some(msg)), server)
        == Step([Reply(msg.chatId, msg.messageId, Failure(SubmitFailed(RequestNotCreated(endpoint.rejects.value))))], None)
    ensures endpoint.rejects.None? && SubmitAnswer(creds, msg, server).Err? ==>
      HandleUpdate(creds, endpoint, Update(Some(msg)), server)
        == Step([Reply(msg.chatId, msg.messageId, Failure(SubmitFailed(SubmitAnswer(creds, msg, server).error)))], None)
  {
  }

  /** "/start", whatever follows it, is answered with the usage text and never polled. */
  lemma StartNeverPolls(creds: Credentials, endpoint: Endpoint, chatId: int, messageId: int, rest: Bytes,
                        server: CheckRequest -> SubmitReply)
    ensures HandleUpdate(creds, endpoint, Update(Some(Message(chatId, messageId, CommandStart + [Space] + rest))), server)
      == Step([Reply(chatId, messageId, Text(UsageText))], None)
  {
    StartIgnoresRest(rest);
  }

  /**
   A "/check" the service accepts with ticket 0 is echoed like any other
   accepted one, but no poll starts for it.
   */
  lemma AcceptedTicketZero(creds: Credentials, endpoint: Endpoint, msg: Message, server: CheckRequest -> SubmitReply)
    requires GetUserCommand(msg.text).Returned? && GetUserCommand(msg.text).value.command == CommandCheck
    requires endpoint.rejects.None?
    requires ClassifySubmit(server(CheckRequestFor(GetUserCommand(msg.text).value, creds))) == Ok(0)
    ensures HandleUpdate(creds, endpoint, Update(Some(msg)), server)
      == Step([Reply(msg.chatId, msg.messageId, Text(msg.text))], None)
  {
    CommandWordsDiffer();
  }

  /**
   The endpoint a started poll uses is one `http.NewRequest` accepted, so
   the poll's nil dereference cannot happen: every poll that starts ends
   with a reply.
   */
  lemma StartedPollFinishes(creds: Credentials, endpoint: Endpoint, msg: Message, server: CheckRequest -> SubmitReply,
                            replies: seq<Poll.PollReply>)
    requires |replies| >= Poll.RetryCount
    requires var r := HandleUpdate(creds, endpoint, Update(Some(msg)), server); r.Step? && r.poll.Some?
    ensures Poll.PollOutcome(HandleUpdate(creds, endpoint, Update(Some(msg)), server).poll.value, endpoint, msg, replies).Finished?
  {
    PollIffAccepted(creds, endpoint, msg, server);
  }

  // ---------------------------------------------------------------------
  // The loop over a run of updates

  /** A poll the loop started: the ticket and the message it answers. */
  datatype PollStart = PollStart(requestId: Int64, message: Message)

  /** The loop's record: replies sent, polls started, and the panic that stopped it, if any. */
  datatype Trace = Trace(sent: seq<Reply>, polls: seq<PollStart>, crash: Option<PanicReason>)

  /** What happens when the loop handles more updates after a trace: nothing after a crash. */
  function Then(x: Trace, y: Trace): (r: Trace)
    ensures x.crash.Some? ==> r == x
    ensures x.crash.None? ==> |r.sent| == |x.sent| + |y.sent| && |r.polls| == |x.polls| + |y.polls|
    ensures x.crash.None? ==> r.crash == y.crash && r.sent[..|x.sent|] == x.sent && r.sent[|x.sent|..] == y.sent
    ensures x.crash.None? ==> r.polls[..|x.polls|] == x.polls && r.polls[|x.polls|..] == y.polls
  {
    if x.crash.Some? then x else Trace(x.sent + y.sent, x.polls + y.polls, y.crash)
  }

  /** Handling three stretches of updates does not depend on how they are grouped. */
  lemma ThenAssoc(x: Trace, y: Trace, z: Trace)
    ensures Then(x, Then(y, z)) == Then(Then(x, y), z)
  {
    if x.crash.None? && y.crash.None? {
      assert x.sent + (y.sent + z.sent) == (x.sent + y.sent) + z.sent;
      assert x.polls + (y.polls + z.polls) == (x.polls + y.polls) + z.polls;
    }
  }

  /** The poll an iteration starts, if any: at most one per reply, always for a ticket other than 0. */
  function PollsOf(update: Update, step: Step): (polls: seq<PollStart>)
    requires step.Step?
    requires step.poll.Some? ==> step.poll.value != 0 && |step.sent| == 1
    ensures |polls| <= |step.sent|
    ensures forall k | 0 <= k < |polls| :: polls[k].requestId != 0
  {
    if update.message.Some? && step.poll.Some? then [PollStart(step.poll.value, update.message.value)] else []
  }

  /** Handling this update panics. */
  predicate Crashes(creds: Credentials, endpoint: Endpoint, update: Update, server: CheckRequest -> SubmitReply) {
    HandleUpdate(creds, endpoint, update, server).Crash?
  }

  /** Some update of the run panics. */
  predicate SomeCrash(creds: Credentials, endpoint: Endpoint, updates: seq<Update>, server: CheckRequest -> SubmitReply) {
    exists i | 0 <= i < |updates| :: Crashes(creds, endpoint, updates[i], server)
  }

  lemma SomeCrashCons(creds: Credentials, endpoint: Endpoint, updates: seq<Update>, server: CheckRequest -> SubmitReply)
    requires |updates| >= 1
    ensures SomeCrash(creds, endpoint, updates, server) <==>
      Crashes(creds, endpoint, updates[0], server) || SomeCrash(creds, endpoint, updates[1..], server)
  {
    if SomeCrash(creds, endpoint, updates, server) && !Crashes(creds, endpoint, updates[0], server) {
      var i :| 0 <= i < |updates| && Crashes(creds, endpoint, updates[i], server);
      assert updates[1..][i - 1] == updates[i];
    }
    if SomeCrash(creds, endpoint, updates[1..], server) {
      var i :| 0 <= i < |updates[1..]| && Crashes(creds, endpoint, updates[1..][i], server);
      assert updates[i + 1] == updates[1..][i];
    }
  }

  /**
   The loop over updates in arrival order. It stops at the first update
   whose handling panics; the updates after it are never handled.
   */
  function Run(creds: Credentials, endpoint: Endpoint, updates: seq<Update>, server: CheckRequest -> SubmitReply)
    : (r: Trace)
    ensures r.crash.Some? <==> SomeCrash(creds, endpoint, updates, server)
    ensures |r.polls| <= |r.sent| <= |updates|
    ensures forall k | 0 <= k < |r.polls| :: r.polls[k].requestId != 0
    decreases |updates|
  {
    if |updates| == 0 then Trace([], [], None)
    else
      SomeCrashCons(creds, endpoint, updates, server);
      var step := HandleUpdate(creds, endpoint, updates[0], server);
      if step.Crash? then Trace([], [], Some(step.reason))
      else
        var rest := Run(creds, endpoint, updates[1..], server);
        var polls := PollsOf(updates[0], step);
        Trace(step.sent + rest.sent, polls + rest.polls, rest.crash)
  }

  /** Nothing after a crashing update makes any difference. */
  lemma CrashStopsTheLoop(creds: Credentials, endpoint: Endpoint, updates: seq<Update>,
                           later: seq<Update>, server: CheckRequest -> SubmitReply)
    requires |updates| >= 1 && Crashes(creds, endpoint, updates[|updates| - 1], server)
    ensures Run(creds, endpoint, updates + later, server) == Run(creds, endpoint, updates, server)
  {
    assert SomeCrash(creds, endpoint, updates, server);
    RunAppend(creds, endpoint, updates, later, server);
  }

  /** One iteration of the loop: the first update's step, then the run of the rest. */
  lemma RunCons(creds: Credentials, endpoint: Endpoint, updates: seq<Update>, server: CheckRequest -> SubmitReply)
    requires |updates| >= 1
    ensures var step := HandleUpdate(creds, endpoint, updates[0], server);
      var rest := Run(creds, endpoint, updates[1..], server);
      Run(creds, endpoint, updates, server) ==
        if step.Crash? then Trace([], [], Some(step.reason))
        else Trace(step.sent + rest.sent, PollsOf(updates[0], step) + rest.polls, rest.crash)
  {
  }

  /** The run of a sequence of updates is the run of its first update followed by the run of the rest. */
  lemma RunSplitFirst(creds: Credentials, endpoint: Endpoint, updates: seq<Update>, server: CheckRequest -> SubmitReply)
    requires |updates| >= 1
    ensures Run(creds, endpoint, updates, server) ==
      Then(Run(creds, endpoint, updates[..1], server), Run(creds, endpoint, updates[1..], server))
  {
    var first := updates[..1];
    assert first[0] == updates[0] && first[1..] == [];
    RunCons(creds, endpoint, updates, server);
    RunCons(creds, endpoint, first, server);
    var step := HandleUpdate(creds, endpoint, updates[0], server);
    if step.Step? {
      assert step.sent + [] == step.sent;
      assert PollsOf(updates[0], step) + [] == PollsOf(updates[0], step);
    }
  }

  /**
   Handling a sequence of updates after another: the replies and polls of a
   prefix that does not crash come first, and the rest is handled exactly as
   if it came alone; a prefix that crashes is all that happens.
   */
  lemma {:induction false} RunAppend(creds: Credentials, endpoint: Endpoint, a: seq<Update>, b: seq<Update>,
                                     server: CheckRequest -> SubmitReply)
    ensures Run(creds, endpoint, a + b, server) == Then(Run(creds, endpoint, a, server), Run(creds, endpoint, b, server))
    decreases |a|
  {
    if |a| == 0 {
      assert a + b == b;
    } else {
      var first, rest, rb := Run(creds, endpoint, a[..1], server), Run(creds, endpoint, a[1..], server), Run(creds, endpoint, b, server);
      RunAppendFirst(creds, endpoint, a, b, server);
      RunAppend(creds, endpoint, a[1..], b, server);
      RunSplitFirst(creds, endpoint, a, server);
      ThenAssoc(first, rest, rb);
    }
  }

  /** The first update of a nonempty prefix is the first update of the whole. */
  lemma RunAppendFirst(creds: Credentials, endpoint: Endpoint, a: seq<Update>, b: seq<Update>,
                       server: CheckRequest -> SubmitReply)
    requires |a| >= 1
    ensures Run(creds, endpoint, a + b, server) ==
      Then(Run(creds, endpoint, a[..1], server), Run(creds, endpoint, a[1..] + b, server))
  {
    assert (a + b)[..1] == a[..1];
    assert (a + b)[1..] == a[1..] + b;
    RunSplitFirst(creds, endpoint, a + b, server);
  }

  /** The same, spelled out: a prefix without a crash contributes its replies and polls first. */
  lemma RunAppendTrace(creds: Credentials, endpoint: Endpoint, a: seq<Update>, b: seq<Update>,
                       server: CheckRequest -> SubmitReply)
    ensures var ra := Run(creds, endpoint, a, server);
      ra.crash.None? ==>
        var rb := Run(creds, endpoint, b, server);
        Run(creds, endpoint, a + b, server) == Trace(ra.sent + rb.sent, ra.polls + rb.polls, rb.crash)
    ensures Run(creds, endpoint, a, server).crash.Some? ==>
      Run(creds, endpoint, a + b, server) == Run(creds, endpoint, a, server)
  {
    RunAppend(creds, endpoint, a, b, server);
  }

  /** The update is a message whose handling starts the poll p. */
  predicate StartsPoll(creds: Credentials, endpoint: Endpoint, update: Update, server: CheckRequest -> SubmitReply,
                       p: PollStart) {
    var step := HandleUpdate(creds, endpoint, update, server);
    update.message == Some(p.message) && step.Step? && step.poll == Some(p.requestId)
  }

  /** Every poll a run records was started by one of its updates. */
  lemma {:induction false} RunPollsStarted(creds: Credentials, endpoint: Endpoint, updates: seq<Update>,
                                           server: CheckRequest -> SubmitReply)
    ensures forall p | p in Run(creds, endpoint, updates, server).polls ::
      exists i | 0 <= i < |updates| :: StartsPoll(creds, endpoint, updates[i], server, p)
    decreases |updates|
  {
    if |updates| > 0 {
      var step := HandleUpdate(creds, endpoint, updates[0], server);
      if step.Step? {
        var rest := updates[1..];
        RunPollsStarted(creds, endpoint, rest, server);
        var first := PollsOf(updates[0], step);
        assert Run(creds, endpoint, updates, server).polls == first + Run(creds, endpoint, rest, server).polls;
        forall p | p in Run(creds, endpoint, updates, server).polls
          ensures exists i | 0 <= i < |updates| :: StartsPoll(creds, endpoint, updates[i], server, p)
        {
          if p in first {
            assert StartsPoll(creds, endpoint, updates[0], server, p);
          } else {
            var i :| 0 <= i < |rest| && StartsPoll(creds, endpoint, rest[i], server, p);
            assert rest[i] == updates[i + 1];
          }
        }
      }
    }
  }

  /** In a run without a crash, every poll an update starts is recorded. */
  lemma {:induction false} RunPollsRecorded(creds: Credentials, endpoint: Endpoint, updates: seq<Update>,
                                            server: CheckRequest -> SubmitReply)
    requires Run(creds, endpoint, updates, server).crash.None?
    ensures forall i, p | 0 <= i < |updates| && StartsPoll(creds, endpoint, updates[i], server, p) ::
      p in Run(creds, endpoint, updates, server).polls
    decreases |updates|
  {
    if |updates| > 0 {
      var step := HandleUpdate(creds, endpoint, updates[0], server);
      assert step.Step?;
      var rest := updates[1..];
      RunPollsRecorded(creds, endpoint, rest, server);
      var first := PollsOf(updates[0], step);
      assert Run(creds, endpoint, updates, server).polls == first + Run(creds, endpoint, rest, server).polls;
      forall i, p | 0 <= i < |updates| && StartsPoll(creds, endpoint, updates[i], server, p)
        ensures p in Run(creds, endpoint, updates, server).polls
      {
        if i == 0 {
          assert first == [p];
        } else {
          assert rest[i - 1] == updates[i];
        }
      }
    }
  }

  /**
   In a run of messages without a crash, the loop sends exactly one reply
   per message, in arrival order, each the reply its own iteration sends.
   */
  lemma {:induction false} RunRepliesInOrder(creds: Credentials, endpoint: Endpoint, updates: seq<Update>,
                                             server: CheckRequest -> SubmitReply)
    requires forall i | 0 <= i < |updates| :: updates[i].message.Some?
    requires !SomeCrash(creds, endpoint, updates, server)
    ensures |Run(creds, endpoint, updates, server).sent| == |updates|
    ensures forall i | 0 <= i < |updates| ::
      Run(creds, endpoint, updates, server).sent[i] == HandleUpdate(creds, endpoint, updates[i], server).sent[0]
    decreases |updates|
  {
    if |updates| > 0 {
      SomeCrashCons(creds, endpoint, updates, server);
      var rest := updates[1..];
      assert forall i | 0 <= i < |rest| :: rest[i] == updates[i + 1];
      RunRepliesInOrder(creds, endpoint, rest, server);
      var step := HandleUpdate(creds, endpoint, updates[0], server);
      var r := Run(creds, endpoint, updates, server);
      assert r.sent == step.sent + Run(creds, endpoint, rest, server).sent;
      forall i | 0 <= i < |updates|
        ensures r.sent[i] == HandleUpdate(creds, endpoint, updates[i], server).sent[0]
      {
        if i > 0 {
          assert updates[i] == rest[i - 1];
        }
      }
    }
  }
}
