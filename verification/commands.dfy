/** `Program.HandleCommandAsync`: filters incoming Discord messages, runs the
    matching command through the command service, turns its result into an
    exception, and presents that exception as a reaction, a reply and console
    lines. Command lookup and execution are the library's; their answers (the
    execute result and the commands the search finds) are inputs here. */
module Commands {
  import opened Wrappers
  import opened UserExceptions

  const CommandPrefix: string := "!"
  const BadArgCountHelp: string :=
    "Sorry, I need a bit more clarification.  Check !help if you need advice on running commands."
  const NotUnderstoodHelp: string :=
    "Ummm, sorry, but I didn't understand that.  If you need advice, take a peek at !help."

  /** An incoming `SocketMessage`. Only a `SocketUserMessage` survives the
      `as` cast; anything else (a system message) becomes null. `isPrivate`
      is whether its channel is a `SocketDMChannel`. */
  datatype InboundMessage =
    | SystemMessage(isPrivate: bool)
    | UserMessage(authorIsBot: bool, content: string, isPrivate: bool)

  /** A command the library's search matched; only its `Remarks` matter.
      They are null (`None`) for a command declared without a `[Remarks]`
      attribute. */
  datatype CommandInfo = CommandInfo(remarks: Option<string>)

  datatype InnerError = InnerError(message: string, stackTrace: string)

  /** Any exception other than a `UserException`; `inner` is its
      `InnerException`, null when absent. */
  datatype RuntimeError = RuntimeError(message: string, stackTrace: string, inner: Option<InnerError>)

  datatype Thrown = User(userError: UserException) | Runtime(runtimeError: RuntimeError)

  /** The `IResult` of `ExecuteAsync`. `ExceptionResult` is an `ExecuteResult`
      whose `Error` is `Exception`, carrying what the command threw;
      `OtherFailure` is every other unsuccessful result, with the name of its
      `CommandError` and its `ErrorReason`. */
  datatype ExecResult =
    | Succeeded
    | BadArgCount(reason: string)
    | ExceptionResult(thrown: Thrown)
    | OtherFailure(error: string, reason: string)

  datatype ReplyTarget = ToAuthor | ToChannel
  datatype Reply = Reply(target: ReplyTarget, text: string)

  /** What handling one message does: whether the command service was asked to
      execute, the reaction added to the message, the reply sent, the console
      lines in order, and whether an exception escapes the handler. */
  datatype Response = Response(
    executed: bool,
    reaction: Option<string>,
    reply: Option<Reply>,
    console: seq<string>,
    escapes: bool)

  const Ignored: Response := Response(false, None, None, [], false)

  /** The `NullReferenceException` from `Search(...).Commands[0]` when the
      search matched nothing (its `Commands` is null). It has no inner
      exception; its stack trace text is not modelled. */
  const SearchFault: RuntimeError :=
    RuntimeError("Object reference not set to an instance of an object.", "", None)

  /** Not null and not written by a bot. */
  predicate IsCandidate(msg: InboundMessage)
  {
    msg.UserMessage? && !msg.authorIsBot
  }

  /** `HasStringPrefix("!")` or `HasMentionPrefix(CurrentUser)`; the mention
      check is the library's, so its verdict is given. */
  predicate HasTrigger(content: string, mentionsBot: bool)
  {
    CommandPrefix <= content || mentionsBot
  }

  /** Direct messages are answered to the author, others in the channel. */
  function ReplyTargetFor(isPrivate: bool): (t: ReplyTarget)
    ensures t == ToAuthor <==> isPrivate
  {
    if isPrivate then ToAuthor else ToChannel
  }

  /** The try block's effect: console lines it prints and what it throws. */
  datatype TryOutcome = TryOutcome(console: seq<string>, thrown: Option<Thrown>)

  /** The help text chosen by `cmd.Remarks != "" ? cmd.Remarks : fallback`.
      Null remarks pass the test, so the help text is then null. */
  function HelpText(cmd: CommandInfo, fallback: string): Option<string>
  {
    if cmd.remarks != Some("") then cmd.remarks else Some(fallback)
  }

  /** What a failure throws: the search fault when the search matched nothing
      (`Commands[0]` throws), otherwise a user exception carrying the first
      command's help text. */
  function Raise(search: seq<CommandInfo>, fallback: string, reason: string, emoji: string): Thrown
  {
    if |search| == 0 then Runtime(SearchFault)
    else User(NewUserException(reason, HelpText(search[0], fallback), Some(emoji)))
  }

  /** Discord.Net refuses to send a text message whose content is null or
      empty: `SendMessageAsync` throws `ArgumentException` before any request
      is made. */
  predicate Deliverable(text: Option<string>)
  {
    text.Some? && text.value != ""
  }

  /** The body of the try block, after `ExecuteAsync` has returned `result`. */
  function RunTry(result: ExecResult, search: seq<CommandInfo>): TryOutcome
  {
    match result
    case Succeeded => TryOutcome([], None)
    case BadArgCount(reason) =>
      TryOutcome([], Some(Raise(search, BadArgCountHelp, reason, EmojiPuzzled)))
    case ExceptionResult(t) => TryOutcome([], Some(t))
    case OtherFailure(error, reason) =>
      TryOutcome([error + ": " + reason], Some(Raise(search, NotUnderstoodHelp, reason, EmojiCry)))
  }

  /** The effect of the two catch blocks. */
  datatype Caught = Caught(reaction: Option<string>, reply: Option<Reply>, console: seq<string>, escapes: bool)

  /** `catch (UserException)` reacts with its emoji when non-null, replies
      with its friendly text and logs its message; a friendly text Discord
      refuses makes the awaited send throw out of the catch block after the
      reaction, before the log line. `catch (Exception)` logs the message and
      stack trace, then dereferences `InnerException`, which throws again when
      it is null. */
  function Catch(t: Thrown, isPrivate: bool): Caught
  {
    match t
    case User(e) =>
      if Deliverable(e.userFriendlyMessage) then
        Caught(e.emoji, Some(Reply(ReplyTargetFor(isPrivate), e.userFriendlyMessage.value)), [e.message], false)
      else
        Caught(e.emoji, None, [], true)
    case Runtime(e) =>
      match e.inner
      case None => Caught(None, None, [e.message, e.stackTrace], true)
      case Some(inner) => Caught(None, None, [e.message, e.stackTrace, inner.message, inner.stackTrace], false)
  }

  /** Combines a try outcome with the catch that handles what it threw. */
  function Finish(outcome: TryOutcome, handler: (Thrown, bool) -> Caught, isPrivate: bool): Response
  {
    match outcome.thrown
    case None => Response(true, None, None, outcome.console, false)
    case Some(t) =>
      var c := handler(t, isPrivate);
      Response(true, c.reaction, c.reply, outcome.console + c.console, c.escapes)
  }

  /** The whole handler, as written. The command service runs exactly for a
      triggered user message not from a bot; there is at most one reply and it
      is never empty, a reaction comes with a reply unless the handler faults,
      a direct message is answered privately, and a fault sends no reply. */
  function HandleCommand(msg: InboundMessage, mentionsBot: bool, result: ExecResult,
                         search: seq<CommandInfo>): (r: Response)
    ensures r.executed <==> IsCandidate(msg) && (CommandPrefix <= msg.content || mentionsBot)
    ensures !r.executed ==> r == Ignored
    ensures r.reaction.Some? && !r.escapes ==> r.reply.Some?
    ensures r.reply.Some? ==> r.reply.value.text != ""
    ensures r.reply.Some? ==> (r.reply.value.target == ToAuthor <==> msg.isPrivate)
    ensures r.escapes ==> r.reply.None?
  {
    if !IsCandidate(msg) then Ignored
    else if !HasTrigger(msg.content, mentionsBot) then Ignored
    else Finish(RunTry(result, search), Catch, msg.isPrivate)
  }

  /** A null (non-user) message, or one from a bot, is never executed and gets
      no reaction, no reply and no console output, whatever its text. */
  lemma NonCandidateIgnored(msg: InboundMessage, mentionsBot: bool, result: ExecResult,
                            search: seq<CommandInfo>)
    requires msg.SystemMessage? || msg.authorIsBot
    ensures HandleCommand(msg, mentionsBot, result, search) == Ignored
    ensures !HandleCommand(msg, mentionsBot, result, search).executed
  {
  }

  /** A successful command produces nothing further. */
  lemma SuccessIsQuiet(msg: InboundMessage, mentionsBot: bool, search: seq<CommandInfo>)
    requires IsCandidate(msg) && HasTrigger(msg.content, mentionsBot)
    ensures HandleCommand(msg, mentionsBot, Succeeded, search) == Response(true, None, None, [], false)
  {
  }

  /** Bad argument count for a command the search finds: react with the
      puzzled emoji; with remarks present, reply with them (or with the
      clarification text when they are empty) and log the error reason; with
      null remarks the reply is refused and the handler faults. */
  lemma BadArgCountResponse(msg: InboundMessage, mentionsBot: bool, reason: string,
                            search: seq<CommandInfo>)
    requires IsCandidate(msg) && HasTrigger(msg.content, mentionsBot)
    requires |search| > 0
    ensures var r := HandleCommand(msg, mentionsBot, BadArgCount(reason), search);
      && r.reaction == Some(EmojiPuzzled)
      && (search[0].remarks.Some? ==>
            && r.reply.Some?
            && (r.reply.value.target == ToAuthor <==> msg.isPrivate)
            && r.reply.value.text == (if search[0].remarks.value != "" then search[0].remarks.value else BadArgCountHelp)
            && r.console == [reason]
            && !r.escapes)
      && (search[0].remarks.None? ==> r.reply.None? && r.console == [] && r.escapes)
  {
  }

  /** Any other unsuccessful, non-exception result for a command the search
      finds: log "Error: reason" and react with the crying emoji; with remarks
      present, reply with them (or with the "didn't understand" text when they
      are empty) and log the reason; with null remarks the reply is refused
      and the handler faults. */
  lemma OtherFailureResponse(msg: InboundMessage, mentionsBot: bool, error: string, reason: string,
                             search: seq<CommandInfo>)
    requires IsCandidate(msg) && HasTrigger(msg.content, mentionsBot)
    requires |search| > 0
    ensures var r := HandleCommand(msg, mentionsBot, OtherFailure(error, reason), search);
      && r.reaction == Some(EmojiCry)
      && (search[0].remarks.Some? ==>
            && r.reply.Some?
            && (r.reply.value.target == ToAuthor <==> msg.isPrivate)
            && r.reply.value.text == (if search[0].remarks.value != "" then search[0].remarks.value else NotUnderstoodHelp)
            && r.console == [error + ": " + reason, reason]
            && !r.escapes)
      && (search[0].remarks.None? ==> r.reply.None? && r.console == [error + ": " + reason] && r.escapes)
  {
  }

  /** A `UserException` thrown by the command: a reaction exactly when its
      emoji is non-null; if its friendly text can be sent, one reply with it
      (to the author in a DM, else to the channel) and its message on the
      console; otherwise no reply, no console line, and the handler faults. */
  lemma UserExceptionPresented(msg: InboundMessage, mentionsBot: bool, e: UserException,
                               search: seq<CommandInfo>)
    requires IsCandidate(msg) && HasTrigger(msg.content, mentionsBot)
    ensures var r := HandleCommand(msg, mentionsBot, ExceptionResult(User(e)), search);
      && r.reaction == e.emoji
      && (Deliverable(e.userFriendlyMessage) ==>
            && r.reply == Some(Reply(ReplyTargetFor(msg.isPrivate), e.userFriendlyMessage.value))
            && r.console == [e.message]
            && !r.escapes)
      && (!Deliverable(e.userFriendlyMessage) ==> r.reply.None? && r.console == [] && r.escapes)
  {
  }

  /** Any other exception from the command is console-only: no reaction, no
      reply; its message and stack trace are logged, and the handler itself
      throws when there is no inner exception. */
  lemma RuntimeExceptionConsoleOnly(msg: InboundMessage, mentionsBot: bool, e: RuntimeError,
                                    search: seq<CommandInfo>)
    requires IsCandidate(msg) && HasTrigger(msg.content, mentionsBot)
    ensures var r := HandleCommand(msg, mentionsBot, ExceptionResult(Runtime(e)), search);
      && r.reaction.None? && r.reply.None?
      && |r.console| >= 2 && r.console[..2] == [e.message, e.stackTrace]
      && (r.escapes <==> e.inner.None?)
  {
  }

  /** As written, a bad argument count or other failure whose search matched
      no command (an unknown command such as "!badcmd") gets no reaction and no
      reply: `Commands[0]` throws, and the catch block throws again on the
      missing inner exception. */
  lemma EmptySearchGetsNoReply(msg: InboundMessage, mentionsBot: bool, result: ExecResult)
    requires IsCandidate(msg) && HasTrigger(msg.content, mentionsBot)
    requires result.BadArgCount? || result.OtherFailure?
    ensures var r := HandleCommand(msg, mentionsBot, result, []);
      && r.reaction.None? && r.reply.None? && r.escapes
  {
  }

  /** As written, a bad argument count or other failure of a command declared
      without remarks gets its reaction but no reply: the null help text is
      refused by the send, which throws out of the catch block. */
  lemma AbsentRemarksGetNoReply(msg: InboundMessage, mentionsBot: bool, result: ExecResult,
                                search: seq<CommandInfo>)
    requires IsCandidate(msg) && HasTrigger(msg.content, mentionsBot)
    requires result.BadArgCount? || result.OtherFailure?
    requires |search| > 0 && search[0].remarks.None?
    ensures var r := HandleCommand(msg, mentionsBot, result, search);
      && r.reaction == Some(if result.BadArgCount? then EmojiPuzzled else EmojiCry)
      && r.reply.None? && r.escapes
  {
  }

  /** The evidently intended help lookup: the first command's remarks when
      they are present and non-empty, otherwise the default text, also when
      the search matched nothing. */
  function HelpTextCorrected(search: seq<CommandInfo>, fallback: string): (h: string)
    ensures |search| > 0 && search[0].remarks.Some? && search[0].remarks.value != "" ==> h == search[0].remarks.value
    ensures |search| == 0 || search[0].remarks.None? || search[0].remarks.value == "" ==> h == fallback
  {
    if |search| > 0 && search[0].remarks.Some? && search[0].remarks.value != "" then search[0].remarks.value
    else fallback
  }

  /** The try block with the corrected help lookup. */
  function RunTryCorrected(result: ExecResult, search: seq<CommandInfo>): TryOutcome
  {
    match result
    case Succeeded => TryOutcome([], None)
    case BadArgCount(reason) =>
      TryOutcome([], Some(User(NewUserException(reason, Some(HelpTextCorrected(search, BadArgCountHelp)), Some(EmojiPuzzled)))))
    case ExceptionResult(t) => TryOutcome([], Some(t))
    case OtherFailure(error, reason) =>
      TryOutcome([error + ": " + reason],
                 Some(User(NewUserException(reason, Some(HelpTextCorrected(search, NotUnderstoodHelp)), Some(EmojiCry)))))
  }

  /** The catch blocks with the inner exception logged only when present. */
  function CatchCorrected(t: Thrown, isPrivate: bool): Caught
  {
    match t
    case User(_) => Catch(t, isPrivate)
    case Runtime(e) =>
      match e.inner
      case None => Caught(None, None, [e.message, e.stackTrace], false)
      case Some(inner) => Caught(None, None, [e.message, e.stackTrace, inner.message, inner.stackTrace], false)
  }

  /** The handler with the help lookup and the generic catch corrected. */
  function HandleCommandCorrected(msg: InboundMessage, mentionsBot: bool, result: ExecResult,
                                  search: seq<CommandInfo>): Response
  {
    if !IsCandidate(msg) then Ignored
    else if !HasTrigger(msg.content, mentionsBot) then Ignored
    else Finish(RunTryCorrected(result, search), CatchCorrected, msg.isPrivate)
  }

  /** Corrected: an unknown command gets the crying reaction and the "didn't
      understand" reply, which is what the fallback help text is for. */
  lemma UnknownCommandGetsDefaultReply(msg: InboundMessage, mentionsBot: bool, error: string, reason: string)
    requires IsCandidate(msg) && HasTrigger(msg.content, mentionsBot)
    ensures var r := HandleCommandCorrected(msg, mentionsBot, OtherFailure(error, reason), []);
      && r.reaction == Some(EmojiCry)
      && r.reply == Some(Reply(ReplyTargetFor(msg.isPrivate), NotUnderstoodHelp))
      && !r.escapes
  {
  }

  /** Corrected: a command declared without remarks gets the default help
      text for its kind of failure. */
  lemma AbsentRemarksGetDefaultReply(msg: InboundMessage, mentionsBot: bool, result: ExecResult,
                                     search: seq<CommandInfo>)
    requires IsCandidate(msg) && HasTrigger(msg.content, mentionsBot)
    requires result.BadArgCount? || result.OtherFailure?
    requires |search| > 0 && search[0].remarks.None?
    ensures var r := HandleCommandCorrected(msg, mentionsBot, result, search);
      && r.reaction == Some(if result.BadArgCount? then EmojiPuzzled else EmojiCry)
      && r.reply == Some(Reply(ReplyTargetFor(msg.isPrivate),
                               if result.BadArgCount? then BadArgCountHelp else NotUnderstoodHelp))
      && !r.escapes
  {
  }

  /** Corrected: the handler faults only when a command itself throws a
      `UserException` whose friendly text Discord refuses; every failure
      result is answered, and a runtime exception stays console-only. */
  lemma CorrectedFaultsOnlyOnRefusedText(msg: InboundMessage, mentionsBot: bool, result: ExecResult,
                                         search: seq<CommandInfo>)
    ensures HandleCommandCorrected(msg, mentionsBot, result, search).escapes ==>
      && result.ExceptionResult? && result.thrown.User?
      && !Deliverable(result.thrown.userError.userFriendlyMessage)
    ensures result.ExceptionResult? && result.thrown.Runtime? ==>
      && HandleCommandCorrected(msg, mentionsBot, result, search).reply.None?
      && HandleCommandCorrected(msg, mentionsBot, result, search).reaction.None?
  {
  }

  /** Wherever the handler as written does not fault, the corrected handler
      does exactly the same thing. */
  lemma CorrectedAgreesWithoutFault(msg: InboundMessage, mentionsBot: bool, result: ExecResult,
                                    search: seq<CommandInfo>)
    requires !HandleCommand(msg, mentionsBot, result, search).escapes
    ensures HandleCommandCorrected(msg, mentionsBot, result, search) == HandleCommand(msg, mentionsBot, result, search)
  {
  }
}
