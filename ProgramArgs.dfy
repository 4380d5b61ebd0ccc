/** The command line of the Raspberry Pi analyzer: `Program`'s static
    settings, their defaults, and `SetConfigFromArgs`, which reads
    `--option value` pairs (and `--disable-...` flags) into those settings. */
module ProgramArgs {
  import opened Prelude
  import Text

  // ---------------------------------------------------------------------------
  // Settings

  /** The static fields of `Program`, as one value. */
  datatype Settings = Settings(
    ledServerUrl: string,
    bands: seq<int>,
    consoleDisplayLevels: int,
    ledDisplayLevels: int,
    webDisplayLevels: int,
    consoleDisplayEnabled: bool,
    ledDisplayEnabled: bool,
    webDisplayEnabled: bool)

  const DefaultUrl: string := "http://0.0.0.0:8090"
  const UrlPrefix: string := "http://0.0.0.0:"
  const DefaultBands: seq<int> := [100, 500, 1000, 2000, 4000, 6000, 8000, 10000, 12000, 14000]

  /** The initial values of the static fields. */
  const Defaults: Settings := Settings(DefaultUrl, DefaultBands, 16, 10, 15, true, true, true)

  const PortKey: string := "--port"
  const BandsKey: string := "--bands"
  const ConsoleLevelsKey: string := "--console-display-levels"
  const LedLevelsKey: string := "--led-display-levels"
  const WebLevelsKey: string := "--web-display-levels"
  const DisableConsoleKey: string := "--disable-console-display"
  const DisableLedKey: string := "--disable-led-display"
  const DisableWebKey: string := "--disable-web-display"

  /** The eight option names, in the order `Program.cs` reads them. */
  const Keys: seq<string> := [PortKey, BandsKey, ConsoleLevelsKey, LedLevelsKey, WebLevelsKey,
                              DisableConsoleKey, DisableLedKey, DisableWebKey]

  /** `s.StartsWith(prefix)`. */
  predicate StartsWith(s: string, prefix: string)
  {
    |prefix| <= |s| && s[..|prefix|] == prefix
  }

  /** A token that names an option. */
  predicate IsOption(token: string)
  {
    StartsWith(token, "--")
  }

  /** An option that takes no value. */
  predicate IsFlag(token: string)
  {
    StartsWith(token, "--disable-")
  }

  /** The known options other than the `--disable-...` ones take a value. */
  lemma ValueKeyKinds()
    ensures IsOption(PortKey) && !IsFlag(PortKey)
    ensures IsOption(BandsKey) && !IsFlag(BandsKey)
    ensures IsOption(ConsoleLevelsKey) && !IsFlag(ConsoleLevelsKey)
    ensures IsOption(LedLevelsKey) && !IsFlag(LedLevelsKey)
    ensures IsOption(WebLevelsKey) && !IsFlag(WebLevelsKey)
  {
    assert PortKey[2] != 'd' && BandsKey[2] != 'd' && ConsoleLevelsKey[2] != 'd';
    assert LedLevelsKey[2] != 'd' && WebLevelsKey[2] != 'd';
  }

  /** The three `--disable-...` options are flags. */
  lemma FlagKeyKinds()
    ensures IsOption(DisableConsoleKey) && IsFlag(DisableConsoleKey)
    ensures IsOption(DisableLedKey) && IsFlag(DisableLedKey)
    ensures IsOption(DisableWebKey) && IsFlag(DisableWebKey)
  {
    assert DisableConsoleKey[..10] == "--disable-";
    assert DisableLedKey[..10] == "--disable-";
    assert DisableWebKey[..10] == "--disable-";
  }

  // ---------------------------------------------------------------------------
  // The options dictionary

  /** The dictionary built from the tokens `args`, added to `acc`: tokens that
      are not options are skipped, a flag gets the empty value, any other
      option takes the token after it (which is itself still read as a
      token). `None` is the exception: an option already present, or an
      option with a value as the last token. */
  function Options(args: seq<string>, acc: map<string, string>): (r: Option<map<string, string>>)
    decreases |args|
  {
    if |args| == 0 then Some(acc)
    else if !IsOption(args[0]) then Options(args[1..], acc)
    else if !IsFlag(args[0]) then
      if |args| < 2 || args[0] in acc then None else Options(args[1..], acc[args[0] := args[1]])
    else if args[0] in acc then None
    else Options(args[1..], acc[args[0] := ""])
  }

  /** The loop of `SetConfigFromArgs` that fills `optionsDict`. */
  method CollectOptions(args: seq<string>) returns (options: Option<map<string, string>>)
    ensures options == Options(args, map[])
  {
    var optionsDict: map<string, string> := map[];
    for i := 0 to |args|
      invariant Options(args, map[]) == Options(args[i..], optionsDict)
    {
      var arg := args[i];
      assert args[i..][0] == arg && args[i..][1..] == args[i + 1..];
      if IsOption(arg) {
        if !IsFlag(arg) {
          if i + 1 >= |args| || arg in optionsDict {
            return None;
          }
          assert args[i..][1] == args[i + 1];
          optionsDict := optionsDict[arg := args[i + 1]];
        } else {
          if arg in optionsDict {
            return None;
          }
          optionsDict := optionsDict[arg := ""];
        }
      }
    }
    assert args[|args|..] == [];
    return Some(optionsDict);
  }

  /** Every key of the dictionary is an option token of the command line or
      was already there; flags have the empty value; every option token of
      the command line is a key. */
  lemma {:induction false} OptionsKeys(args: seq<string>, acc: map<string, string>)
    requires Options(args, acc).Some?
    ensures var d := Options(args, acc).value;
      && (forall k :: k in d ==> k in acc || (IsOption(k) && k in args))
      && (forall k :: k in d && k !in acc && IsFlag(k) ==> d[k] == "")
      && (forall i :: 0 <= i < |args| && IsOption(args[i]) ==> args[i] in d)
      && (forall k :: k in acc ==> k in d && d[k] == acc[k])
    decreases |args|
  {
    if |args| > 0 {
      var acc' := if !IsOption(args[0]) then acc else if !IsFlag(args[0]) then acc[args[0] := args[1]] else acc[args[0] := ""];
      assert Options(args, acc) == Options(args[1..], acc');
      OptionsKeys(args[1..], acc');
      var d := Options(args, acc).value;
      forall i | 0 <= i < |args| && IsOption(args[i])
        ensures args[i] in d
      {
        if i > 0 {
          assert args[i] == args[1..][i - 1];
        }
      }
      forall k | k in d && k !in acc
        ensures IsOption(k) && k in args
      {
        if k !in acc' {
          assert k in args[1..];
        }
      }
    }
  }

  /** An option other than a flag takes the very next token as its value. */
  lemma {:induction false} OptionValue(args: seq<string>, acc: map<string, string>, i: int)
    requires Options(args, acc).Some? && 0 <= i < |args| && IsOption(args[i]) && !IsFlag(args[i])
    ensures i + 1 < |args| && args[i] in Options(args, acc).value && Options(args, acc).value[args[i]] == args[i + 1]
    decreases |args|
  {
    OptionsKeys(args, acc);
    var acc' := if !IsOption(args[0]) then acc else if !IsFlag(args[0]) then acc[args[0] := args[1]] else acc[args[0] := ""];
    assert Options(args, acc) == Options(args[1..], acc');
    if i == 0 {
      OptionsKeys(args[1..], acc');
    } else {
      assert args[1..][i - 1] == args[i];
      OptionValue(args[1..], acc', i - 1);
    }
  }

  /** An option given twice makes the dictionary throw. */
  lemma {:induction false} RepeatedOptionFails(args: seq<string>, acc: map<string, string>, j: int, k: int)
    requires 0 <= j < k < |args| && args[j] == args[k] && IsOption(args[j])
    ensures Options(args, acc) == None
    decreases |args|
  {
    if j == 0 {
      if args[0] !in acc {
        var acc' := if !IsFlag(args[0]) then acc[args[0] := args[1]] else acc[args[0] := ""];
        assert args[1..][k - 1] == args[0];
        PresentOptionFails(args[1..], acc', k - 1);
      }
    } else if IsOption(args[0]) && (args[0] in acc || (!IsFlag(args[0]) && |args| < 2)) {
    } else {
      var acc' := if !IsOption(args[0]) then acc else if !IsFlag(args[0]) then acc[args[0] := args[1]] else acc[args[0] := ""];
      assert args[1..][j - 1] == args[j] && args[1..][k - 1] == args[k];
      RepeatedOptionFails(args[1..], acc', j - 1, k - 1);
    }
  }

  /** An option token that is already a key makes the dictionary throw
      when it is reached. */
  lemma {:induction false} PresentOptionFails(args: seq<string>, acc: map<string, string>, k: int)
    requires 0 <= k < |args| && IsOption(args[k]) && args[k] in acc
    ensures Options(args, acc) == None
    decreases |args|
  {
    if k > 0 && !(IsOption(args[0]) && (args[0] in acc || (!IsFlag(args[0]) && |args| < 2))) {
      var acc' := if !IsOption(args[0]) then acc else if !IsFlag(args[0]) then acc[args[0] := args[1]] else acc[args[0] := ""];
      assert args[1..][k - 1] == args[k];
      PresentOptionFails(args[1..], acc', k - 1);
    }
  }

  /** An option that needs a value as the last token reads past the end of
      `args` and throws. */
  lemma {:induction false} DanglingOptionFails(args: seq<string>, acc: map<string, string>)
    requires |args| > 0 && IsOption(args[|args| - 1]) && !IsFlag(args[|args| - 1])
    ensures Options(args, acc) == None
    decreases |args|
  {
    if |args| > 1 && !(IsOption(args[0]) && (args[0] in acc || (!IsFlag(args[0]) && |args| < 2))) {
      var acc' := if !IsOption(args[0]) then acc else if !IsFlag(args[0]) then acc[args[0] := args[1]] else acc[args[0] := ""];
      assert args[1..][|args| - 2] == args[|args| - 1];
      DanglingOptionFails(args[1..], acc');
    }
  }

  // ---------------------------------------------------------------------------
  // Splitting the band list

  /** `s.Split(sep)`: the pieces between separators, always at least one. */
  function Split(s: string, sep: char): (r: seq<string>)
    ensures |r| >= 1
    ensures forall i, j :: 0 <= i < |r| && 0 <= j < |r[i]| ==> r[i][j] != sep
    decreases |s|
  {
    if |s| == 0 then [""]
    else
      var rest := Split(s[1..], sep);
      if s[0] == sep then [""] + rest else [[s[0]] + rest[0]] + rest[1..]
  }

  /** The pieces put back together with the separator between them. */
  function Join(pieces: seq<string>, sep: char): (s: string)
    requires |pieces| >= 1
    decreases |pieces|
  {
    if |pieces| == 1 then pieces[0] else pieces[0] + [sep] + Join(pieces[1..], sep)
  }

  /** Splitting loses nothing: the pieces join back to the text. */
  lemma {:induction false} SplitJoin(s: string, sep: char)
    ensures Join(Split(s, sep), sep) == s
    decreases |s|
  {
    if |s| > 0 {
      SplitJoin(s[1..], sep);
      var rest := Split(s[1..], sep);
      if s[0] == sep {
        assert ([""] + rest)[1..] == rest;
      } else if |rest| == 1 {
      } else {
        assert ([[s[0]] + rest[0]] + rest[1..])[1..] == rest[1..];
        assert [s[0]] + rest[0] + [sep] + Join(rest[1..], sep) == [s[0]] + (rest[0] + [sep] + Join(rest[1..], sep));
      }
    }
  }

  /** Text without the separator in front of more text joins the first piece. */
  lemma {:induction false} SplitPrefix(p: string, x: string, sep: char)
    requires forall j :: 0 <= j < |p| ==> p[j] != sep
    ensures Split(p + x, sep) == [p + Split(x, sep)[0]] + Split(x, sep)[1..]
    decreases |p|
  {
    if |p| == 0 {
      assert p + x == x && p + Split(x, sep)[0] == Split(x, sep)[0];
    } else {
      SplitPrefix(p[1..], x, sep);
      assert (p + x)[1..] == p[1..] + x;
      assert [p[0]] + (p[1..] + Split(x, sep)[0]) == p + Split(x, sep)[0];
    }
  }

  /** Pieces without the separator split back out of their join. */
  lemma {:induction false} JoinSplit(pieces: seq<string>, sep: char)
    requires |pieces| >= 1
    requires forall i, j :: 0 <= i < |pieces| && 0 <= j < |pieces[i]| ==> pieces[i][j] != sep
    ensures Split(Join(pieces, sep), sep) == pieces
    decreases |pieces|
  {
    if |pieces| == 1 {
      SplitPrefix(pieces[0], "", sep);
      assert pieces[0] + "" == pieces[0];
    } else {
      var rest := Join(pieces[1..], sep);
      JoinSplit(pieces[1..], sep);
      assert Split([sep] + rest, sep) == [""] + pieces[1..] by {
        assert ([sep] + rest)[1..] == rest;
      }
      SplitPrefix(pieces[0], [sep] + rest, sep);
      assert pieces[0] + [sep] + rest == pieces[0] + ([sep] + rest);
      assert pieces[0] + "" == pieces[0];
    }
  }

  // ---------------------------------------------------------------------------
  // Reading the values

  /** The values of a list of conversions, in order; `None` when one of
      them failed. */
  function AllSome(xs: seq<Option<int>>): (r: Option<seq<int>>)
    ensures r.Some? ==> |r.value| == |xs|
    decreases |xs|
  {
    if |xs| == 0 then Some([])
    else match xs[0]
      case None => None
      case Some(v) =>
        match AllSome(xs[1..])
        case None => None
        case Some(vs) => Some([v] + vs)
  }

  /** `AllSome` succeeds exactly when every conversion does, and then gives
      their values. */
  lemma {:induction false} AllSomeValues(xs: seq<Option<int>>)
    ensures AllSome(xs).Some? <==> forall i :: 0 <= i < |xs| ==> xs[i].Some?
    ensures AllSome(xs).Some? ==> forall i :: 0 <= i < |xs| ==> xs[i] == Some(AllSome(xs).value[i])
    decreases |xs|
  {
    if |xs| > 0 {
      AllSomeValues(xs[1..]);
      assert forall i :: 1 <= i < |xs| ==> xs[1..][i - 1] == xs[i];
    }
  }

  /** `Convert.ToInt32(piece.Trim())` for every piece, in order; `None` when
      one of them throws. */
  function ParsePieces(pieces: seq<string>): (r: Option<seq<int>>)
    ensures r.Some? ==> |r.value| == |pieces|
  {
    AllSome(PieceValues(pieces))
  }

  /** The conversion of each piece. */
  function PieceValues(pieces: seq<string>): (r: seq<Option<int>>)
    ensures |r| == |pieces| && forall i :: 0 <= i < |pieces| ==> r[i] == Text.ParseInt32(Text.Trim(pieces[i]))
  {
    seq(|pieces|, i requires 0 <= i < |pieces| => Text.ParseInt32(Text.Trim(pieces[i])))
  }

  /** The new band table from the `--bands` value. */
  function ParseBands(bandsString: string): (r: Option<seq<int>>)
    ensures r.Some? ==> |r.value| >= 1
  {
    ParsePieces(Split(bandsString, ','))
  }

  /** A level option: absent or blank keeps `current`, otherwise the trimmed
      value is parsed and `None` is the exception. */
  function LevelValue(options: map<string, string>, key: string, current: int): (r: Option<int>)
    ensures key !in options || Text.Trim(options[key]) == "" ==> r == Some(current)
    ensures key in options && Text.Trim(options[key]) != "" ==> r == Text.ParseInt32(Text.Trim(options[key]))
  {
    if key !in options then Some(current)
    else
      var levels := Text.Trim(options[key]);
      if |levels| == 0 then Some(current) else Text.ParseInt32(levels)
  }

  /** The `--port` step: the URL on that port unless the trimmed value is
      empty. */
  function WithPort(s: Settings, options: map<string, string>): (r: Settings)
    ensures r == s || (PortKey in options && r == s.(ledServerUrl := UrlPrefix + Text.Trim(options[PortKey])))
  {
    if PortKey !in options then s
    else
      var port := Text.Trim(options[PortKey]);
      if |port| == 0 then s else s.(ledServerUrl := UrlPrefix + port)
  }

  /** The `--disable-...` steps, one display each. */
  function ConsoleDisabled(s: Settings, options: map<string, string>): Settings
  {
    if DisableConsoleKey in options then s.(consoleDisplayEnabled := false) else s
  }

  function LedDisabled(s: Settings, options: map<string, string>): Settings
  {
    if DisableLedKey in options then s.(ledDisplayEnabled := false) else s
  }

  function WebDisabled(s: Settings, options: map<string, string>): Settings
  {
    if DisableWebKey in options then s.(webDisplayEnabled := false) else s
  }

  /** The three `--disable-...` steps. */
  function WithDisabled(s: Settings, options: map<string, string>): Settings
  {
    WebDisabled(LedDisabled(ConsoleDisabled(s, options), options), options)
  }

  /** Whether `SetConfigFromArgs` returned true, and the settings it left. */
  datatype Outcome = Outcome(ok: bool, settings: Settings)

  /** What the option values read as, each `None` where the conversion
      throws: the three levels (`LevelValue`) and the band table (the
      current one when `--bands` is absent). */
  datatype Reads = Reads(console: Option<int>, led: Option<int>, web: Option<int>, bands: Option<seq<int>>)

  /** The conversions of `SetConfigFromArgs`, each against the setting it
      replaces. */
  function ReadOptions(s: Settings, options: map<string, string>): (r: Reads)
    ensures ConsoleLevelsKey !in options ==> r.console == Some(s.consoleDisplayLevels)
    ensures LedLevelsKey !in options ==> r.led == Some(s.ledDisplayLevels)
    ensures WebLevelsKey !in options ==> r.web == Some(s.webDisplayLevels)
    ensures BandsKey !in options ==> r.bands == Some(s.bands)
  {
    Reads(LevelValue(options, ConsoleLevelsKey, s.consoleDisplayLevels),
          LevelValue(options, LedLevelsKey, s.ledDisplayLevels),
          LevelValue(options, WebLevelsKey, s.webDisplayLevels),
          if BandsKey in options then ParseBands(options[BandsKey]) else Some(s.bands))
  }

  /** The steps after the dictionary, in the order of the source, given what
      the values read as; a step whose conversion throws ends the method
      with the earlier steps' assignments kept. */
  function ApplyReads(s: Settings, options: map<string, string>, values: Reads): (r: Outcome)
  {
    var s1 := WithPort(s, options);
    if values.console.None? then Outcome(false, s1)
    else
      var s2 := s1.(consoleDisplayLevels := values.console.value);
      if values.led.None? then Outcome(false, s2)
      else
        var s3 := s2.(ledDisplayLevels := values.led.value);
        if values.web.None? then Outcome(false, s3)
        else
          var s4 := s3.(webDisplayLevels := values.web.value);
          if values.bands.None? then Outcome(false, s4)
          else
            var s5 := if |values.bands.value| > 0 then s4.(bands := values.bands.value) else s4;
            Outcome(true, WithDisabled(s5, options))
  }

  /** The steps after the dictionary. */
  function ApplyOptions(s: Settings, options: map<string, string>): (r: Outcome)
  {
    ApplyReads(s, options, ReadOptions(s, options))
  }

  /** `SetConfigFromArgs` on the settings `s`. */
  function Configured(s: Settings, args: seq<string>): (r: Outcome)
  {
    if |args| == 0 then Outcome(true, s)
    else match Options(args, map[])
      case None => Outcome(false, s)
      case Some(options) => ApplyOptions(s, options)
  }

  // ---------------------------------------------------------------------------
  // Properties of the settings steps

  /** A run that gets through every conversion sets the URL from a
      non-blank port, each level and the band table from what they read as,
      and turns a display off when its flag is present. */
  lemma ApplyReadsSets(s: Settings, options: map<string, string>, values: Reads)
    requires ApplyReads(s, options, values).ok
    ensures values.console.Some? && values.led.Some? && values.web.Some? && values.bands.Some?
    ensures var r := ApplyReads(s, options, values).settings;
      && r.ledServerUrl == (if PortKey in options && Text.Trim(options[PortKey]) != "" then UrlPrefix + Text.Trim(options[PortKey])
                            else s.ledServerUrl)
      && r.consoleDisplayLevels == values.console.value
      && r.ledDisplayLevels == values.led.value
      && r.webDisplayLevels == values.web.value
      && r.bands == (if |values.bands.value| > 0 then values.bands.value else s.bands)
      && r.consoleDisplayEnabled == (s.consoleDisplayEnabled && DisableConsoleKey !in options)
      && r.ledDisplayEnabled == (s.ledDisplayEnabled && DisableLedKey !in options)
      && r.webDisplayEnabled == (s.webDisplayEnabled && DisableWebKey !in options)
  {
  }

  /** A successful run keeps every setting whose option is absent, and turns
      a display off exactly when its flag is given or it was already off. */
  lemma ConfiguredKeepsUnnamed(s: Settings, args: seq<string>)
    requires Configured(s, args).ok && |args| > 0
    ensures Options(args, map[]).Some?
    ensures var options := Options(args, map[]).value; var r := Configured(s, args).settings;
      && (PortKey !in options ==> r.ledServerUrl == s.ledServerUrl)
      && (BandsKey !in options ==> r.bands == s.bands)
      && (ConsoleLevelsKey !in options ==> r.consoleDisplayLevels == s.consoleDisplayLevels)
      && (LedLevelsKey !in options ==> r.ledDisplayLevels == s.ledDisplayLevels)
      && (WebLevelsKey !in options ==> r.webDisplayLevels == s.webDisplayLevels)
      && r.consoleDisplayEnabled == (s.consoleDisplayEnabled && DisableConsoleKey !in options)
      && r.ledDisplayEnabled == (s.ledDisplayEnabled && DisableLedKey !in options)
      && r.webDisplayEnabled == (s.webDisplayEnabled && DisableWebKey !in options)
  {
    var options := Options(args, map[]).value;
    var values := ReadOptions(s, options);
    assert Configured(s, args) == ApplyReads(s, options, values);
    ApplyReadsSets(s, options, values);
  }

  /** A disable flag on the command line turns its display off. */
  lemma DisableFlagTurnsOff(s: Settings, args: seq<string>, i: int)
    requires Configured(s, args).ok && 0 <= i < |args|
    ensures args[i] == DisableConsoleKey ==> !Configured(s, args).settings.consoleDisplayEnabled
    ensures args[i] == DisableLedKey ==> !Configured(s, args).settings.ledDisplayEnabled
    ensures args[i] == DisableWebKey ==> !Configured(s, args).settings.webDisplayEnabled
  {
    FlagKeyKinds();
    ConfiguredKeepsUnnamed(s, args);
    OptionsKeys(args, map[]);
  }

  /** Blank text is not whitespace-trimmed into anything else, and text that
      starts and ends with a non-blank is left alone. */
  lemma TrimNoop(s: string)
    requires |s| > 0 && !Text.IsWhiteSpace(s[0]) && !Text.IsWhiteSpace(s[|s| - 1])
    ensures Text.Trim(s) == s
  {
  }

  /** A number's decimal text is neither blank-edged nor holds a comma. */
  lemma DecimalShape(n: int)
    ensures var t := Text.DecimalString(n);
      && |t| > 0 && !Text.IsWhiteSpace(t[0]) && !Text.IsWhiteSpace(t[|t| - 1])
      && (forall j :: 0 <= j < |t| ==> t[j] != ',')
      && !IsOption(t)
  {
    var digits := Text.NatString(if n < 0 then -n else n);
    var t := Text.DecimalString(n);
    if n < 0 {
      assert forall j :: 1 <= j < |t| ==> t[j] == digits[j - 1];
      assert Text.IsDigit(t[1]);
    } else {
      assert Text.IsDigit(t[0]);
    }
  }

  /** A number's decimal text, trimmed and converted, is the number. */
  lemma PieceRoundTrip(n: int)
    requires Text.Int32Min <= n <= Text.Int32Max
    ensures Text.ParseInt32(Text.Trim(Text.DecimalString(n))) == Some(n)
  {
    DecimalShape(n);
    TrimNoop(Text.DecimalString(n));
    Text.DecimalRoundTrip(n);
  }

  /** The option names are pairwise different. */
  lemma KeysDistinct()
    ensures |Keys| == 8 && forall i, j :: 0 <= i < j < |Keys| ==> Keys[i] != Keys[j]
    ensures |PortKey| == 6 && |BandsKey| == 7 && |ConsoleLevelsKey| == 24
    ensures |LedLevelsKey| == 20 && |WebLevelsKey| == 20 && LedLevelsKey != WebLevelsKey
    ensures |DisableConsoleKey| == 25 && |DisableLedKey| == 21 && |DisableWebKey| == 21
    ensures DisableLedKey != DisableWebKey
  {
    assert LedLevelsKey[2] != WebLevelsKey[2];
    assert DisableLedKey[10] != DisableWebKey[10];
  }

  /** An option that takes a value, followed by a value that is not an
      option, gives a one-entry dictionary. */
  lemma OptionPair(key: string, value: string)
    requires IsOption(key) && !IsFlag(key) && !IsOption(value)
    ensures Options([key, value], map[]) == Some(map[key := value])
  {
    var d := map[key := value];
    assert [value][1..] == [];
    assert Options([value], d) == Some(d);
    assert [key, value][1..] == [value];
  }

  /** With only `--console-display-levels` given, the console level reads as
      its value and the rest as the current settings. */
  lemma ConsoleLevelReads(s: Settings, d: string, n: int)
    requires Text.Trim(d) != "" && Text.ParseInt32(Text.Trim(d)) == Some(n)
    ensures ReadOptions(s, map[ConsoleLevelsKey := d])
      == Reads(Some(n), Some(s.ledDisplayLevels), Some(s.webDisplayLevels), Some(s.bands))
  {
    KeysDistinct();
  }

  /** With only `--console-display-levels` given and every value readable,
      only the console level changes. */
  lemma ConsoleLevelApplies(s: Settings, d: string, n: int)
    ensures ApplyReads(s, map[ConsoleLevelsKey := d], Reads(Some(n), Some(s.ledDisplayLevels), Some(s.webDisplayLevels), Some(s.bands)))
      == Outcome(true, s.(consoleDisplayLevels := n))
  {
    KeysDistinct();
  }

  /** A level written in decimal on the command line is the level read. */
  lemma LevelRoundTrip(s: Settings, n: int)
    requires Text.Int32Min <= n <= Text.Int32Max
    ensures Configured(s, [ConsoleLevelsKey, Text.DecimalString(n)]) == Outcome(true, s.(consoleDisplayLevels := n))
  {
    var d := Text.DecimalString(n);
    ValueKeyKinds();
    DecimalShape(n);
    OptionPair(ConsoleLevelsKey, d);
    PieceRoundTrip(n);
    TrimNoop(d);
    ConsoleLevelReads(s, d, n);
    ConsoleLevelApplies(s, d, n);
  }

  /** The decimal texts of some numbers. */
  function Decimals(values: seq<int>): (r: seq<string>)
    ensures |r| == |values| && forall i :: 0 <= i < |values| ==> r[i] == Text.DecimalString(values[i])
  {
    seq(|values|, i requires 0 <= i < |values| => Text.DecimalString(values[i]))
  }

  /** A band table written as comma-separated decimals is the table read. */
  lemma BandsRoundTrip(values: seq<int>)
    requires |values| >= 1
    requires forall i :: 0 <= i < |values| ==> Text.Int32Min <= values[i] <= Text.Int32Max
    ensures ParseBands(Join(Decimals(values), ',')) == Some(values)
  {
    var pieces := Decimals(values);
    DecimalsHaveNoCommas(values);
    JoinSplit(pieces, ',');
    DecimalsParse(values);
  }

  /** No decimal text holds a comma. */
  lemma DecimalsHaveNoCommas(values: seq<int>)
    ensures var pieces := Decimals(values);
      forall i, j :: 0 <= i < |pieces| && 0 <= j < |pieces[i]| ==> pieces[i][j] != ','
  {
    var pieces := Decimals(values);
    forall i, j | 0 <= i < |pieces| && 0 <= j < |pieces[i]|
      ensures pieces[i][j] != ','
    {
      DecimalShape(values[i]);
    }
  }

  /** Decimal texts convert back to their numbers. */
  lemma DecimalsParse(values: seq<int>)
    requires forall i :: 0 <= i < |values| ==> Text.Int32Min <= values[i] <= Text.Int32Max
    ensures ParsePieces(Decimals(values)) == Some(values)
  {
    var parsed := PieceValues(Decimals(values));
    assert forall i :: 0 <= i < |parsed| ==> parsed[i] == Some(values[i]) by {
      forall i | 0 <= i < |parsed|
        ensures parsed[i] == Some(values[i])
      {
        PieceRoundTrip(values[i]);
      }
    }
    AllSomeValues(parsed);
    assert AllSome(parsed).value == values by {
      var r := AllSome(parsed).value;
      assert forall i :: 0 <= i < |values| ==> r[i] == values[i];
    }
  }

  // ---------------------------------------------------------------------------
  // The static fields

  /** The statements of `SetConfigFromArgs` after the dictionary is built,
      on a copy `settings` of the static fields; a conversion that throws
      returns false with the assignments made so far. */
  method ApplySettings(current: Settings, optionsDict: map<string, string>) returns (ok: bool, settings: Settings)
    ensures Outcome(ok, settings) == ApplyOptions(current, optionsDict)
  {
    ghost var values := ReadOptions(current, optionsDict);
    settings := current;
    if PortKey in optionsDict {
      var port := Text.Trim(optionsDict[PortKey]);
      settings := settings.(ledServerUrl := if |port| == 0 then settings.ledServerUrl else UrlPrefix + port);
    }
    assert settings == WithPort(current, optionsDict);
    var levels := LevelValue(optionsDict, ConsoleLevelsKey, settings.consoleDisplayLevels);
    assert levels == values.console;
    if levels.None? {
      return false, settings;
    }
    settings := settings.(consoleDisplayLevels := levels.value);
    levels := LevelValue(optionsDict, LedLevelsKey, settings.ledDisplayLevels);
    assert levels == values.led;
    if levels.None? {
      return false, settings;
    }
    settings := settings.(ledDisplayLevels := levels.value);
    levels := LevelValue(optionsDict, WebLevelsKey, settings.webDisplayLevels);
    assert levels == values.web;
    if levels.None? {
      return false, settings;
    }
    settings := settings.(webDisplayLevels := levels.value);
    ghost var levelled := settings;
    if BandsKey in optionsDict {
      var newBands := ParseBands(optionsDict[BandsKey]);
      assert newBands == values.bands;
      if newBands.None? {
        return false, settings;
      }
      if |newBands.value| > 0 {
        settings := settings.(bands := newBands.value);
      }
    }
    assert settings == if |values.bands.value| > 0 then levelled.(bands := values.bands.value) else levelled;
    settings := DisableDisplays(settings, optionsDict);
    assert ApplyOptions(current, optionsDict) == ApplyReads(current, optionsDict, values);
    ok := true;
  }

  /** The `--disable-...` statements of `SetConfigFromArgs`. */
  method DisableDisplays(current: Settings, optionsDict: map<string, string>) returns (settings: Settings)
    ensures settings == WithDisabled(current, optionsDict)
  {
    settings := current;
    if DisableConsoleKey in optionsDict {
      settings := settings.(consoleDisplayEnabled := false);
    }
    if DisableLedKey in optionsDict {
      settings := settings.(ledDisplayEnabled := false);
    }
    if DisableWebKey in optionsDict {
      settings := settings.(webDisplayEnabled := false);
    }
  }

  /** `Program`'s static settings, updated in place by `SetConfigFromArgs`. */
  class Program {
    var ledServerUrl: string
    var bands: seq<int>
    var consoleDisplayLevels: int
    var ledDisplayLevels: int
    var webDisplayLevels: int
    var consoleDisplayEnabled: bool
    var ledDisplayEnabled: bool
    var webDisplayEnabled: bool

    function Current(): Settings
      reads this
    {
      Settings(ledServerUrl, bands, consoleDisplayLevels, ledDisplayLevels, webDisplayLevels,
               consoleDisplayEnabled, ledDisplayEnabled, webDisplayEnabled)
    }

    /** The field initialisers. */
    constructor()
      ensures Current() == Defaults
    {
      ledServerUrl := DefaultUrl;
      bands := DefaultBands;
      consoleDisplayLevels := 16;
      ledDisplayLevels := 10;
      webDisplayLevels := 15;
      consoleDisplayEnabled := true;
      ledDisplayEnabled := true;
      webDisplayEnabled := true;
    }

    /** `SetConfigFromArgs`: the result and the new settings are those of
        `Configured`; with no arguments nothing changes. */
    method SetConfigFromArgs(args: seq<string>) returns (ok: bool)
      modifies this
      ensures Outcome(ok, Current()) == Configured(old(Current()), args)
      ensures |args| == 0 ==> ok && Current() == old(Current())
    {
      if |args| == 0 {
        return true;
      }
      var options := CollectOptions(args);
      if options.None? {
        return false;
      }
      var settings;
      ok, settings := ApplySettings(Current(), options.value);
      Store(settings);
    }

    /** Writes the copy of the settings back to the static fields. */
    method Store(settings: Settings)
      modifies this
      ensures Current() == settings
    {
      ledServerUrl, bands := settings.ledServerUrl, settings.bands;
      consoleDisplayLevels, ledDisplayLevels, webDisplayLevels :=
        settings.consoleDisplayLevels, settings.ledDisplayLevels, settings.webDisplayLevels;
      consoleDisplayEnabled, ledDisplayEnabled, webDisplayEnabled :=
        settings.consoleDisplayEnabled, settings.ledDisplayEnabled, settings.webDisplayEnabled;
    }
  }
}
