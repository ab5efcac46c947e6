# FactoBot relay and dispatch logic in Dafny

FactoBot connects a Factorio game server to a Discord channel. It starts the
server as a child process and echoes every line the server prints. A line that
carries the `[CHAT]` marker has its chat text posted to one configured Discord
text channel. Discord messages starting with `!` or with a mention of the bot
are executed as commands. A failure the command library reports gets an emoji
reaction and a help reply, except for an unknown command and for a command
declared without remarks (see Findings). An exception thrown by a command other
than a `UserException` is only logged.
Lines typed on the operator console are written to the server's standard
input.

This project models that decision logic as pure functions over strings,
options and small datatypes. The Discord client, the command library and the
process plumbing are outside the model. Their answers become inputs, and every
message sent, reaction added, console line printed or stdin line written
becomes part of a returned value.

Modules:

- `Strings`: ordinal substring search (`IndexOf`, `Contains`), `Join` and `Concat`.
- `NetSplit`: the .NET Core `string.Split` behaviour the code relies on. `Split(string)` keeps empty pieces; `RemoveEmptyEntries` drops them.
- `StringExtentions`: the `Split` extension method (`Extensions/StringExtentions.cs`).
- `UserExceptions`: the `UserException` record and its two emoji constants.
- `Relay`: `Factorio_OutputDataReceived`. It covers the echo, marker extraction, channel lookup and the configuration diagnostic.
- `Commands`: `HandleCommandAsync`. It covers the message filter, the trigger, classification of the execute result, and both catch blocks.
- `ConsoleInput`: `UserListenerAsync`. It decides per line whether to forward, and the self-recursion becomes a loop.
- `Launch` and `CommandLine`: the `StartFactorio` argument string. `CommandLine` holds the Windows command-line splitting used to judge that string.

Behaviour of the code worth knowing:

- The relayed text is element `[1]` of `line.Split("[CHAT]")`. That is the text between the first marker and the next marker or the end of the line, not everything after the first marker.
- Console lines made only of whitespace are forwarded, because the test is `IsNullOrEmpty`.
- An unknown command such as `!badcmd` gets no reply at all, rather than the default "didn't understand" text (see Findings).
- A failing command declared without a `[Remarks]` attribute gets its reaction but no reply, because its null remarks are taken as the help text (see Findings).
- The message filter tests whether the message is a user message and whether its author is a bot. It does not test whether the content is empty.

## Model

| member | source | states |
|---|---|---|
| `Strings.IndexOf` | FactoBot/Program.cs:141 | the search `Split` performs finds the leftmost occurrence of the separator, and finds none exactly when the separator does not occur |
| `NetSplit.SplitKeepingEmpty` | FactoBot/Program.cs:141 | `Split(string)` always yields at least one element |
| `NetSplit.JoinSplitKeepingEmpty` | FactoBot/Program.cs:141 | joining the pieces with the separator gives back the original line |
| `NetSplit.SplitKeepingEmptyPiecesAreFree` | FactoBot/Program.cs:141 | no piece contains the separator |
| `NetSplit.SplitKeepingEmptySingle` | FactoBot/Program.cs:141-142 | the split has exactly one element iff the marker is absent, and then that element is the whole line, so `Count > 1` means "marker present" |
| `NetSplit.SecondPiece` | FactoBot/Program.cs:141-148 | element `[1]` is the text after the first marker, up to the next marker or the end of the line, and contains no marker |
| `NetSplit.RemoveEmptyEntries` | FactoBot/Extensions/StringExtentions.cs:11 | the filter leaves no empty entry, keeps the entries in their input order, keeps exactly the non-empty entries of the input, and keeps each as often as it occurs there |
| `NetSplit.ConcatRemoveEmptyEntries` | FactoBot/Extensions/StringExtentions.cs:11 | dropping empty entries does not change the concatenation |
| `NetSplit.ConcatSplitKeepingEmpty` | FactoBot/Extensions/StringExtentions.cs:11 | concatenating the pieces equals the character scan that deletes each left-to-right, non-overlapping separator occurrence |
| `StringExtentions.Split` | FactoBot/Extensions/StringExtentions.cs:9-12 | no entry is empty; the empty input gives no entries; a non-empty input without the separator, or with an empty separator, gives exactly `[input]`; with a non-empty separator no entry contains it |
| `StringExtentions.SplitConcat` | FactoBot/Extensions/StringExtentions.cs:11 | concatenating the entries gives the input with every left-to-right, non-overlapping separator occurrence deleted |
| `StringExtentions.SplitKeepsNonEmptyPieces` | FactoBot/Extensions/StringExtentions.cs:11 | every non-empty piece between separators is among the entries |
| `UserExceptions.NewUserException` | FactoBot/Exceptions/UserException.cs:13-17 | the console message becomes `Message`, and the friendly text and emoji are stored unchanged |
| `UserExceptions.OmittedEmojiIsNull` | FactoBot/Exceptions/UserException.cs:13 | leaving out the third argument leaves `Emoji` null |
| `UserExceptions.EmojiConstantsDistinct` | FactoBot/Exceptions/UserException.cs:7-8 | the crying and puzzled emoji are distinct and non-null |
| `Relay.ResolveChannel` | FactoBot/Program.cs:144-145 | a channel is found iff the first guild with `GuildId` has a text channel with `ChannelId`, and the channel found has that id |
| `Relay.OnOutputLine` | FactoBot/Program.cs:138-155 | the line is always echoed first; a message is sent iff the line holds `[CHAT]` and the target resolves, and then to the configured guild and channel; "Invalid GuildId or ChannelId in appsettings" follows the echo iff the marker is present and the target does not resolve |
| `Relay.NoMarkerNoRelay` | FactoBot/Program.cs:141-142 | a line without `[CHAT]` splits into `[line]` and causes no send and no diagnostic |
| `Relay.RelayedPayload` | FactoBot/Program.cs:141-148 | the sent text is the text after the first marker up to the second marker or the end of the line, and holds no marker |
| `Relay.SecondMarkerCutsPayload` | FactoBot/Program.cs:141-148 | with a second marker present, the sent text is not the whole remainder after the first marker |
| `Relay.TrailingMarkerRelaysEmpty` | FactoBot/Program.cs:141-148 | a line that ends with its first marker relays the empty string |
| `Relay.NoBracketNoMarker` | FactoBot/Program.cs:141 | text without `[` cannot contain the marker |
| `Relay.SingleMarkerRelaysRest` | FactoBot/Program.cs:141-148 | for a line with exactly one marker, the whole text after it is relayed |
| `Relay.HelloWorldExample` | FactoBot/Program.cs:138-155 | the server line `2024 [CHAT]Hello world` relays `Hello world` |
| `Commands.ReplyTargetFor` | FactoBot/Program.cs:234-241 | a direct message is answered to the author, any other message in its channel |
| `Commands.HandleCommand` | FactoBot/Program.cs:157-252 | the command service runs iff the message is a user message not from a bot that starts with `!` or mentions the bot; otherwise nothing happens; a reply is never empty; a reaction comes with a reply unless the handler faults; a DM is answered privately; a fault sends no reply |
| `Commands.NonCandidateIgnored` | FactoBot/Program.cs:159-168 | a non-user message or one from a bot is never executed and produces nothing, whatever its prefix |
| `Commands.SuccessIsQuiet` | FactoBot/Program.cs:186-226 | a successful command produces no reaction, reply or console output |
| `Commands.BadArgCountResponse` | FactoBot/Program.cs:188-243 | bad argument count of a command the search finds: 🤔 reaction; with remarks present, a reply with the remarks or, when they are empty, the clarification text, and the error reason on the console; with null remarks no reply and the handler faults |
| `Commands.OtherFailureResponse` | FactoBot/Program.cs:209-243 | other failures of a command the search finds: console shows "Error: reason" and a 😢 reaction follows; with remarks present, a reply with the remarks or, when they are empty, the "didn't understand" text, then the reason; with null remarks no reply and the handler faults |
| `Commands.UserExceptionPresented` | FactoBot/Program.cs:227-243 | a thrown `UserException` gets its emoji as reaction (none when null); when its friendly text is non-null and non-empty, exactly one reply with it (to the author in a DM, else to the channel) and its message on the console; otherwise no reply, no console line, and the handler faults |
| `Commands.RuntimeExceptionConsoleOnly` | FactoBot/Program.cs:244-250 | any other exception is console-only: no reaction and no reply, its message and stack trace are logged, and the handler throws again iff there is no inner exception |
| `Commands.EmptySearchGetsNoReply` | FactoBot/Program.cs:186-250 | as written, a failure whose command search matched nothing gets no reaction and no reply, and an exception escapes |
| `Commands.AbsentRemarksGetNoReply` | FactoBot/Program.cs:193-195 | as written, a failure of a command declared without remarks gets its reaction but no reply, and an exception escapes |
| `Commands.HelpTextCorrected` | FactoBot/Program.cs:191-200 | corrected lookup: the first command's remarks when present and non-empty, otherwise the default text, including when nothing matched |
| `Commands.UnknownCommandGetsDefaultReply` | FactoBot/Program.cs:209-224 | corrected: an unknown command gets 😢 and the "didn't understand" reply |
| `Commands.AbsentRemarksGetDefaultReply` | FactoBot/Program.cs:193-200 | corrected: a command declared without remarks gets the default help text for its kind of failure, and nothing escapes |
| `Commands.CorrectedFaultsOnlyOnRefusedText` | FactoBot/Program.cs:244-250 | corrected: the handler faults only when a command throws a `UserException` whose friendly text Discord refuses, and a non-user exception stays console-only |
| `Commands.CorrectedAgreesWithoutFault` | FactoBot/Program.cs:157-252 | wherever the handler as written does not fault, the corrected handler behaves identically |
| `ConsoleInput.ForwardLine` | FactoBot/Program.cs:275-278 | a line is written to stdin iff it is neither null nor empty, and then verbatim |
| `ConsoleInput.WhitespaceLineForwarded` | FactoBot/Program.cs:275 | a whitespace-only line is forwarded unchanged |
| `ConsoleInput.WrittenLinesAreInputs` | FactoBot/Program.cs:272-280 | every line written was read, none is empty, no more lines are written than read, and every non-empty line read is written |
| `ConsoleInput.Listen` | FactoBot/Program.cs:272-280 | the listener loop writes exactly the forwarded lines, in the order read |
| `Launch.ArgvOfHead` | FactoBot/Program.cs:100 | the fixed part of the argument string splits into `--start-server`, `Server`, `--server-settings`, the quoted settings path and `-c` |
| `Launch.LaunchArguments` | FactoBot/Program.cs:100 | the argument string yields `--start-server`, `Server`, `--server-settings`, the whole settings path and `-c`, followed by whatever the unquoted config path splits into |
| `Launch.LaunchArgvWithoutBlanks` | FactoBot/Program.cs:100 | with a config directory free of blanks, the server receives exactly the intended six arguments |
| `Launch.BlankConfigDirectoryIsSplit` | FactoBot/Program.cs:100 | as written, a config directory containing a blank does not arrive as one argument |
| `Launch.CorrectedLaunchArgv` | FactoBot/Program.cs:100 | with the config path quoted, the intended six arguments arrive for any directories without quotes |

## Findings

| source | as written | input that shows it | evidently intended | confidence | as-written member | corrected member |
|---|---|---|---|---|---|---|
| FactoBot/Program.cs:213 | `Search(...).Commands[0]` is read even when the search matched nothing; its `NullReferenceException` lands in the generic catch, so the user gets no reply | the message `!badcmd` when no command is named `badcmd` (the execute result is `UnknownCommand`) | a 😢 reaction and the "didn't understand" reply | medium, not executed; it relies on the command library returning no commands for an unknown name | `Commands.EmptySearchGetsNoReply` | `Commands.UnknownCommandGetsDefaultReply` |
| FactoBot/Program.cs:248 | `ex.InnerException.Message` is read unconditionally, so the catch block throws again | a command that throws an exception without an inner exception | log the inner exception only when there is one | high, not executed | `Commands.RuntimeExceptionConsoleOnly` | `Commands.CorrectedFaultsOnlyOnRefusedText` |
| FactoBot/Program.cs:193-195 | `cmd.Remarks != ""` lets null remarks through, so the help text is null; after the reaction, the send of that null text throws out of the `UserException` catch, so the user gets no reply | a `!` command with too few arguments, declared without a `[Remarks]` attribute | fall back to the default help text when the remarks are null or empty | medium, not executed; it relies on the command library leaving `Remarks` null without the attribute and refusing to send null content | `Commands.AbsentRemarksGetNoReply` | `Commands.AbsentRemarksGetDefaultReply` |
| FactoBot/Program.cs:100 | the config path after `-c` is not quoted, unlike the settings path | `ConfigDirectory` = `C:\Program Files\Factorio` | the config path arrives as one argument | medium, not executed | `Launch.BlankConfigDirectoryIsSplit` | `Launch.CorrectedLaunchArgv` |

The corrected handler `Commands.HandleCommandCorrected` applies the help-text
corrections (null remarks and an empty search) and the generic-catch
correction together. `Commands.CorrectedAgreesWithoutFault` shows that it
differs from the code only where the code faults.

## Left out

- Discord client work is not modelled: login, game status, event wiring, and the `SendMessageAsync` / `AddReactionAsync` transport. Network I/O is outside the model, so a send or reaction is a returned value, and transport failures are not modelled.
- Command discovery, execution and search are not modelled. They are reflection-based library calls, so the execute result and the list of commands the search matched are inputs.
- The verdict of `HasMentionPrefix` is an input (`mentionsBot`). The library code that parses mentions is not part of this model. Only the `!` prefix test is modelled.
- `argPos` is not modelled. It only feeds the library calls that are inputs here.
- `Process.Start`, the executable path (`FileName`), stream redirection and window options are not modelled. This is OS I/O; only the argument string is modelled, since it alone is split into the server's arguments.
- A null `e.Data` at end of stream is not modelled. There, the `Split` call would throw. `Relay.OnOutputLine` takes a non-null line, because the behaviour depends on the event source.
- `Factorio_ErrorDataReceived` is not modelled. It only echoes, and stderr is neither redirected nor read, so it never fires.
- Configuration loading and the `AppConfig` statics are not modelled. They are file I/O and global state, so guild and channel ids and the directories are parameters.
- The DM console line with `DateTime.Now`, `Debug`/`IsDebug`, and the token-prefix log line are not modelled. They are clock, compile-flag and console side effects.
- ConsoleInput.Listen: every stdin write is taken to succeed, i.e. the model assumes the server is still running whenever a line is written. Once the server has exited, `WriteLine` on its closed input pipe throws, nothing catches it, and the bot process ends; process lifetime is OS state outside the model.
- The listener's async self-recursion and `Console.ReadLine` are modelled as a loop over a finite list of lines read. At end of input `ReadLine` keeps returning null, and the source loops forever without writing.
- `Commands.SearchFault` uses the runtime's standard `NullReferenceException` message. Stack-trace text is not modelled (empty), and neither is the library's logging of the escaping exception (`escapes`).
- A reply or relayed message is the `SendMessageAsync` call, not a delivered message. Discord.Net also refuses content longer than 2000 UTF-16 code units; that limit is not modelled because the model counts characters, not UTF-16 units. Null or empty content is modelled (`Commands.Deliverable`).
- `Relay.OnOutputLine`: `sent` records the un-awaited `SendMessageAsync(message[1])` call. When the payload is empty (`Relay.TrailingMarkerRelaysEmpty`), Discord.Net refuses it and the un-observed task faults silently, so nothing reaches the channel.
- `CommandLine.Scan` models only the blank and double-quote rules of Windows argument splitting. The backslash and doubled-quote rules never apply to the strings reasoned about, which exclude `"` in the directories.
- The `UserException` emoji fields are `public static` and mutable in C#; the model treats them as constants. In C# each emoji is two UTF-16 code units; in the model it is one `char`.
- A null separator passed to `StringExtentions.Split` is not modelled; separators are strings.
