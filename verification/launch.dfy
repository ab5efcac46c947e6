/** `Program.StartFactorio`: the argument string the Factorio server is
    started with, built from `AppConfig.FactorioDirectory`
    and `AppConfig.ConfigDirectory`. The settings path is quoted; the config
    path is not. */
module Launch {
  import opened CommandLine

  function SettingsPath(factorioDirectory: string): string
  {
    factorioDirectory + "\\server-settings.json"
  }

  function ConfigPath(configDirectory: string): string
  {
    configDirectory + "\\config-server.ini"
  }

  /** Everything before the config path, which is the same in the string as
      written and in the corrected one:
      `--start-server Server --server-settings "<settings path>" -c `. */
  function ArgumentsHead(factorioDirectory: string): string
  {
    "--start-server" + " " + "Server" + " " + "--server-settings" + " "
      + "\"" + SettingsPath(factorioDirectory) + "\"" + " " + "-c" + " "
  }

  /** `ProcessStartInfo.Arguments` as written: it yields the five fixed
      arguments, the settings path whole among them, followed by whatever the
      unquoted config path splits into. */
  function LaunchArguments(factorioDirectory: string, configDirectory: string): (a: string)
    ensures NoQuote(factorioDirectory) ==>
      Argv(a) == ["--start-server", "Server", "--server-settings", SettingsPath(factorioDirectory), "-c"]
                 + Argv(ConfigPath(configDirectory))
  {
    var a := ArgumentsHead(factorioDirectory) + ConfigPath(configDirectory);
    if NoQuote(factorioDirectory) then ArgvOfHead(factorioDirectory, ConfigPath(configDirectory)); a
    else a
  }

  /** The arguments the server is meant to receive: start the save "Server"
      with the settings file in the Factorio directory and the config file in
      the config directory. */
  function IntendedArgv(factorioDirectory: string, configDirectory: string): seq<string>
  {
    ["--start-server", "Server", "--server-settings", SettingsPath(factorioDirectory), "-c", ConfigPath(configDirectory)]
  }

  lemma LiteralWords()
    ensures NoQuote("--start-server") && NoBlank("--start-server")
    ensures NoQuote("Server") && NoBlank("Server")
    ensures NoQuote("--server-settings") && NoBlank("--server-settings")
    ensures NoQuote("-c") && NoBlank("-c")
    ensures NoQuote("\\server-settings.json")
    ensures NoQuote("\\config-server.ini") && NoBlank("\\config-server.ini")
  {
  }

  lemma HeadShape(factorioDirectory: string, tail: string)
    ensures ArgumentsHead(factorioDirectory) + tail
         == "--start-server" + " " + ("Server" + " " + ("--server-settings" + " "
            + ("\"" + SettingsPath(factorioDirectory) + "\"" + (" " + ("-c" + " " + tail)))))
  {
  }

  /** The fixed head splits into the five leading arguments, the settings
      path kept whole even when it holds blanks. */
  lemma ArgvOfHead(factorioDirectory: string, tail: string)
    requires NoQuote(factorioDirectory)
    ensures Argv(ArgumentsHead(factorioDirectory) + tail)
         == ["--start-server", "Server", "--server-settings", SettingsPath(factorioDirectory), "-c"] + Argv(tail)
  {
    var settings := SettingsPath(factorioDirectory);
    LiteralWords();
    assert NoQuote(settings);
    var s4 := "-c" + " " + tail;
    var s3 := "\"" + settings + "\"" + (" " + s4);
    var s2 := "--server-settings" + " " + s3;
    var s1 := "Server" + " " + s2;
    var s0 := "--start-server" + " " + s1;
    HeadShape(factorioDirectory, tail);
    Word("-c", tail);
    assert (" " + s4)[0] == ' ' && (" " + s4)[1..] == s4;
    QuotedWord(settings, " " + s4);
    assert Argv(s3) == [settings, "-c"] + Argv(tail);
    Word("--server-settings", s3);
    Word("Server", s2);
    Word("--start-server", s1);
  }

  lemma AppendCancels(p: seq<string>, a: seq<string>, b: seq<string>)
    ensures p + a == p + b ==> a == b
  {
    assert (p + a)[|p|..] == a && (p + b)[|p|..] == b;
  }

  /** With a config directory free of blanks and quotes, the server receives
      exactly the intended arguments. */
  lemma LaunchArgvWithoutBlanks(factorioDirectory: string, configDirectory: string)
    requires NoQuote(factorioDirectory) && NoQuote(configDirectory) && NoBlank(configDirectory)
    ensures Argv(LaunchArguments(factorioDirectory, configDirectory)) == IntendedArgv(factorioDirectory, configDirectory)
  {
    var config := ConfigPath(configDirectory);
    ArgvOfHead(factorioDirectory, config);
    LiteralWords();
    assert NoQuote(config) && NoBlank(config);
    ScanPlain(config, "", false, "", false);
    assert config + "" == config && "" + config == config;
  }

  /** As written: a config directory containing a blank (such as
      "C:\Program Files\Factorio") is split into several arguments, so the
      server does not receive the intended config path. */
  lemma BlankConfigDirectoryIsSplit(factorioDirectory: string, configDirectory: string)
    requires NoQuote(factorioDirectory) && NoQuote(configDirectory) && !NoBlank(configDirectory)
    ensures Argv(LaunchArguments(factorioDirectory, configDirectory)) != IntendedArgv(factorioDirectory, configDirectory)
  {
    var config := ConfigPath(configDirectory);
    ArgvOfHead(factorioDirectory, config);
    LiteralWords();
    assert NoQuote(config);
    UnquotedArgsHaveNoBlank(config, "", false);
    var k :| 0 <= k < |configDirectory| && IsBlank(configDirectory[k]);
    assert config[k] == configDirectory[k];
    assert !NoBlank(config);
    var rest := Argv(config);
    if |rest| == 1 {
      assert NoBlank(rest[0]);
      assert rest[0] != config;
    }
    assert rest != [config];
    AppendCancels(["--start-server", "Server", "--server-settings", SettingsPath(factorioDirectory), "-c"], rest, [config]);
    assert IntendedArgv(factorioDirectory, configDirectory)
        == ["--start-server", "Server", "--server-settings", SettingsPath(factorioDirectory), "-c"] + [config];
  }

  /** The evidently intended string: the config path quoted like the
      settings path. */
  function LaunchArgumentsCorrected(factorioDirectory: string, configDirectory: string): string
  {
    ArgumentsHead(factorioDirectory) + "\"" + ConfigPath(configDirectory) + "\""
  }

  /** Corrected: for any directories without quotes, blanks included, the
      server receives exactly the intended arguments. */
  lemma CorrectedLaunchArgv(factorioDirectory: string, configDirectory: string)
    requires NoQuote(factorioDirectory) && NoQuote(configDirectory)
    ensures Argv(LaunchArgumentsCorrected(factorioDirectory, configDirectory)) == IntendedArgv(factorioDirectory, configDirectory)
  {
    var config := ConfigPath(configDirectory);
    var tail := "\"" + config + "\"";
    assert LaunchArgumentsCorrected(factorioDirectory, configDirectory) == ArgumentsHead(factorioDirectory) + tail;
    ArgvOfHead(factorioDirectory, tail);
    LiteralWords();
    assert NoQuote(config);
    QuotedWord(config, "");
    assert tail + "" == tail;
  }
}
