/** `Program.Factorio_OutputDataReceived`: every line the Factorio server
    writes is echoed to the console; a line holding the `[CHAT]` marker has
    its chat text sent to the configured Discord text channel. */
module Relay {
  import opened Wrappers
  import opened Strings
  import opened NetSplit

  /** Discord ids are 64-bit unsigned (`ulong`). */
  type Snowflake = x: int | 0 <= x < 0x1_0000_0000_0000_0000

  const ChatMarker: string := "[CHAT]"
  const InvalidTargetMessage: string := "Invalid GuildId or ChannelId in appsettings"

  datatype TextChannel = TextChannel(id: Snowflake)
  datatype Guild = Guild(id: Snowflake, textChannels: seq<TextChannel>)

  /** `AppConfig.GuildId` and `AppConfig.ChannelId`. */
  datatype RelayTarget = RelayTarget(guildId: Snowflake, channelId: Snowflake)

  /** One `SendMessageAsync` on a text channel. */
  datatype ChatSend = ChatSend(guildId: Snowflake, channelId: Snowflake, text: string)

  /** What handling one output line does: console lines in order, and the
      chat message sent, if any. */
  datatype OutputEffect = OutputEffect(console: seq<string>, sent: Option<ChatSend>)

  /** `g` is the index of the first connected guild with id `guildId`. */
  predicate IsFirstGuild(guilds: seq<Guild>, guildId: Snowflake, g: int)
  {
    0 <= g < |guilds| && guilds[g].id == guildId
    && forall h | 0 <= h < g :: guilds[h].id != guildId
  }

  predicate HasTextChannel(guild: Guild, channelId: Snowflake)
  {
    exists c | 0 <= c < |guild.textChannels| :: guild.textChannels[c].id == channelId
  }

  /** The first connected guild with the configured id has a text channel
      with the configured id. */
  ghost predicate Resolvable(guilds: seq<Guild>, target: RelayTarget)
  {
    exists g :: IsFirstGuild(guilds, target.guildId, g) && HasTextChannel(guilds[g], target.channelId)
  }

  /** There is at most one first guild. */
  lemma FirstGuildUnique(guilds: seq<Guild>, guildId: Snowflake, g: int, g': int)
    requires IsFirstGuild(guilds, guildId, g) && IsFirstGuild(guilds, guildId, g')
    ensures g == g'
  {
  }

  /** `_client.Guilds.FirstOrDefault(...)` followed by
      `guild?.TextChannels.FirstOrDefault(...)`. */
  function ResolveChannel(guilds: seq<Guild>, target: RelayTarget): (r: Option<TextChannel>)
    ensures r.Some? <==> Resolvable(guilds, target)
    ensures r.Some? ==> r.value.id == target.channelId
  {
    match FirstIndex(guilds, (g: Guild) => g.id == target.guildId)
    case None => None
    case Some(g) =>
      assert IsFirstGuild(guilds, target.guildId, g);
      assert forall g' | IsFirstGuild(guilds, target.guildId, g') :: g' == g by {
        forall g' | IsFirstGuild(guilds, target.guildId, g') ensures g' == g {
          FirstGuildUnique(guilds, target.guildId, g, g');
        }
      }
      var channels := guilds[g].textChannels;
      match FirstIndex(channels, (c: TextChannel) => c.id == target.channelId)
      case None => None
      case Some(c) => Some(channels[c])
  }

  /** The handler for one non-null output line. The line is always echoed;
      a message is sent exactly when the line holds the marker and the target
      resolves, and then to the configured guild and channel; the diagnostic
      follows the echo exactly when the marker is present and the target does
      not resolve. */
  function OnOutputLine(line: string, guilds: seq<Guild>, target: RelayTarget): (r: OutputEffect)
    ensures |r.console| >= 1 && r.console[0] == line
    ensures r.sent.Some? <==> Contains(line, ChatMarker) && Resolvable(guilds, target)
    ensures r.sent.Some? ==> r.sent.value.guildId == target.guildId && r.sent.value.channelId == target.channelId
    ensures r.console == (if Contains(line, ChatMarker) && !Resolvable(guilds, target)
                          then [line, InvalidTargetMessage] else [line])
  {
    var message := SplitKeepingEmpty(line, ChatMarker);
    SplitKeepingEmptySingle(line, ChatMarker);
    if |message| > 1 then
      match ResolveChannel(guilds, target)
      case Some(channel) =>
        OutputEffect([line], Some(ChatSend(target.guildId, channel.id, message[1])))
      case None =>
        OutputEffect([line, InvalidTargetMessage], None)
    else
      OutputEffect([line], None)
  }

  /** A line without the marker splits into the single element `[line]` and
      causes no relay and no diagnostic. */
  lemma NoMarkerNoRelay(line: string, guilds: seq<Guild>, target: RelayTarget)
    requires !Contains(line, ChatMarker)
    ensures SplitKeepingEmpty(line, ChatMarker) == [line]
    ensures OnOutputLine(line, guilds, target) == OutputEffect([line], None)
  {
    SplitKeepingEmptySingle(line, ChatMarker);
  }

  /** The relayed text is the split's element [1]: the characters after the
      first marker up to the second marker or the end of the line. It never
      contains the marker. */
  lemma RelayedPayload(line: string, guilds: seq<Guild>, target: RelayTarget)
    requires Contains(line, ChatMarker) && Resolvable(guilds, target)
    ensures OnOutputLine(line, guilds, target).sent.Some?
    ensures SegmentAfterFirst(line, ChatMarker, OnOutputLine(line, guilds, target).sent.value.text)
    ensures !Contains(OnOutputLine(line, guilds, target).sent.value.text, ChatMarker)
  {
    SplitKeepingEmptySingle(line, ChatMarker);
    SecondPiece(line, ChatMarker);
  }

  /** When the marker occurs a second time, the text from that second marker
      on is not relayed, so the payload is shorter than "everything after the
      first marker". */
  lemma SecondMarkerCutsPayload(line: string, guilds: seq<Guild>, target: RelayTarget, i: nat)
    requires FirstOccursAt(line, ChatMarker, i) && Resolvable(guilds, target)
    requires Contains(line[i + |ChatMarker|..], ChatMarker)
    ensures OnOutputLine(line, guilds, target).sent.Some?
    ensures OnOutputLine(line, guilds, target).sent.value.text != line[i + |ChatMarker|..]
  {
    RelayedPayload(line, guilds, target);
  }

  /** A line that ends with its first marker relays the empty string. */
  lemma TrailingMarkerRelaysEmpty(line: string, guilds: seq<Guild>, target: RelayTarget)
    requires |line| >= |ChatMarker| && FirstOccursAt(line, ChatMarker, |line| - |ChatMarker|)
    requires Resolvable(guilds, target)
    ensures OnOutputLine(line, guilds, target).sent.Some?
    ensures OnOutputLine(line, guilds, target).sent.value.text == ""
  {
    RelayedPayload(line, guilds, target);
  }

  /** A line with exactly one marker relays exactly the text after it. */
  lemma SingleMarkerRelaysRest(prefix: string, rest: string, guilds: seq<Guild>, target: RelayTarget)
    requires !Contains(prefix, ChatMarker) && !Contains(rest, ChatMarker) && Resolvable(guilds, target)
    ensures OnOutputLine(prefix + ChatMarker + rest, guilds, target).sent.Some?
    ensures OnOutputLine(prefix + ChatMarker + rest, guilds, target).sent.value.text == rest
  {
    var line := prefix + ChatMarker + rest;
    var n := |prefix|;
    assert line[n..n + |ChatMarker|] == ChatMarker;
    assert OccursAt(line, ChatMarker, n);
    forall j | 0 <= j < n
      ensures !OccursAt(line, ChatMarker, j)
    {
      if j + |ChatMarker| <= n {
        assert line[j..j + |ChatMarker|] == prefix[j..j + |ChatMarker|];
        assert !OccursAt(prefix, ChatMarker, j);
      } else {
        // An occurrence straddling the end of the prefix would need a '['
        // past the first character of the marker.
        assert line[j..j + |ChatMarker|][n - j] == line[n] == '[';
      }
    }
    assert FirstOccursAt(line, ChatMarker, n);
    assert Contains(line, ChatMarker);
    RelayedPayload(line, guilds, target);
    var p := OnOutputLine(line, guilds, target).sent.value.text;
    var i :| FirstOccursAt(line, ChatMarker, i) && UpToFirst(line[i + |ChatMarker|..], ChatMarker, p);
    assert i == n;
    assert line[n + |ChatMarker|..] == rest;
    assert !FirstOccursAt(rest, ChatMarker, |p|);
  }

  /** Text without '[' cannot hold the marker. */
  lemma NoBracketNoMarker(t: string)
    requires '[' !in t
    ensures !Contains(t, ChatMarker)
  {
    forall j | 0 <= j <= |t|
      ensures !OccursAt(t, ChatMarker, j)
    {
      if j + |ChatMarker| <= |t| {
        assert t[j..j + |ChatMarker|][0] == t[j];
      }
    }
  }

  /** The server line "2024 [CHAT]Hello world" relays "Hello world". */
  lemma HelloWorldExample(guilds: seq<Guild>, target: RelayTarget)
    requires Resolvable(guilds, target)
    ensures OnOutputLine("2024 [CHAT]Hello world", guilds, target).sent.Some?
    ensures OnOutputLine("2024 [CHAT]Hello world", guilds, target).sent.value.text == "Hello world"
  {
    NoBracketNoMarker("2024 ");
    NoBracketNoMarker("Hello world");
    assert "2024 [CHAT]Hello world" == "2024 " + ChatMarker + "Hello world";
    SingleMarkerRelaysRest("2024 ", "Hello world", guilds, target);
  }
}
