/** The printed re-run command, and the POSIX shell reading that undoes its quoting. */
module Shell {
  import opened Basics

  // ----- Printing -----

  predicate IsSafe(c: char) {
    || 'a' <= c <= 'z' || 'A' <= c <= 'Z' || '0' <= c <= '9'
    || c == '/' || c == '.' || c == '_' || c == '-' || c == ':' || c == '='
  }

  predicate AllSafe(s: string) {
    forall i :: 0 <= i < |s| ==> IsSafe(s[i])
  }

  const QUOTE_IN_QUOTES := "'\"'\"'"

  /** `value.replace('\'', "'\"'\"'")`. */
  function EscapeQuotes(s: string): string {
    if s == "" then ""
    else (if s[0] == '\'' then QUOTE_IN_QUOTES else [s[0]]) + EscapeQuotes(s[1..])
  }

  /** `shell_quote`. */
  function Quote(value: string): string {
    if value == "" then "''"
    else if AllSafe(value) then value
    else "'" + EscapeQuotes(value) + "'"
  }

  /** Exactly the values made of these characters alone are left as they are. */
  lemma QuotedUnlessPlain(value: string)
    ensures Quote(value) == value <==>
      value != "" && forall i :: 0 <= i < |value| ==>
        || 'a' <= value[i] <= 'z' || 'A' <= value[i] <= 'Z' || '0' <= value[i] <= '9'
        || value[i] in "/._-:="
  {
    hide EscapeQuotes;
    if value != "" && !AllSafe(value) {
      EscapedIsLonger(value);
      assert |Quote(value)| == |EscapeQuotes(value)| + 2;
    }
  }

  lemma {:induction false} EscapedIsLonger(s: string)
    ensures |EscapeQuotes(s)| >= |s|
  {
    if s != "" {
      EscapedIsLonger(s[1..]);
    }
  }

  // ----- Reading (POSIX.1-2017, XCU sections 2.2 and 2.3) -----

  datatype Mode = Unquoted | Single | Double

  /** Characters that make the command more than a list of plain words, when unquoted. */
  predicate IsSpecial(c: char) {
    c in {'|', '&', ';', '<', '>', '(', ')', '$', '`', '*', '?', '[', '\n'}
  }

  /** Inside double quotes a backslash only escapes these. */
  predicate EscapableInDouble(c: char) {
    c == '$' || c == '`' || c == '"' || c == '\\' || c == '\n'
  }

  /**
   * The words of a command line, with `word` the one being read; None when the line is not a list
   * of plain words (an operator, expansion, comment or unfinished quote).
   */
  function Words(s: string, word: Option<string>, mode: Mode): Option<seq<string>>
    decreases |s|
  {
    var soFar := if word.Some? then word.value else "";
    if s == "" then
      if mode.Unquoted? then Some(if word.Some? then [word.value] else []) else None
    else
      var c := s[0];
      match mode
      case Single =>
        if c == '\'' then Words(s[1..], Some(soFar), Unquoted) else Words(s[1..], Some(soFar + [c]), Single)
      case Double =>
        if c == '"' then Words(s[1..], Some(soFar), Unquoted)
        else if c == '$' || c == '`' then None
        else if c == '\\' && |s| > 1 && EscapableInDouble(s[1]) then
          Words(s[2..], Some(if s[1] == '\n' then soFar else soFar + [s[1]]), Double)
        else Words(s[1..], Some(soFar + [c]), Double)
      case Unquoted =>
        if c == ' ' || c == '\t' then
          var rest := Words(s[1..], None, Unquoted);
          if rest.None? || word.None? then rest else Some([word.value] + rest.value)
        else if c == '\'' then Words(s[1..], Some(soFar), Single)
        else if c == '"' then Words(s[1..], Some(soFar), Double)
        else if c == '\\' then
          if |s| == 1 then None
          else if s[1] == '\n' then Words(s[2..], word, Unquoted)
          else Words(s[2..], Some(soFar + [s[1]]), Unquoted)
        else if IsSpecial(c) then None
        else if word.None? && (c == '#' || c == '~') then None
        else Words(s[1..], Some(soFar + [c]), Unquoted)
  }

  lemma {:induction false} SafeRun(value: string, rest: string, word: Option<string>)
    requires AllSafe(value) && value != ""
    ensures Words(value + rest, word, Unquoted)
         == Words(rest, Some((if word.Some? then word.value else "") + value), Unquoted)
    decreases |value|
  {
    var s := value + rest;
    var soFar := if word.Some? then word.value else "";
    assert s[0] == value[0] && s[1..] == value[1..] + rest;
    assert soFar + [value[0]] + value[1..] == soFar + value;
    if |value| > 1 {
      assert forall i :: 0 <= i < |value[1..]| ==> value[1..][i] == value[i + 1];
      SafeRun(value[1..], rest, Some(soFar + [value[0]]));
    } else {
      assert value[1..] + rest == rest;
      assert value == [value[0]];
    }
  }

  lemma {:induction false} QuotedRun(value: string, rest: string, word: string)
    ensures Words(EscapeQuotes(value) + "'" + rest, Some(word), Single) == Words(rest, Some(word + value), Unquoted)
    decreases |value|
  {
    var s := EscapeQuotes(value) + "'" + rest;
    if value == "" {
      assert s[1..] == rest && word + value == word;
    } else {
      var tail := EscapeQuotes(value[1..]) + "'" + rest;
      QuotedRun(value[1..], rest, word + [value[0]]);
      assert word + [value[0]] + value[1..] == word + value;
      if value[0] == '\'' {
        assert s == QUOTE_IN_QUOTES + tail;
        ReadQuoteInQuotes(tail, word);
      } else {
        assert s == [value[0]] + tail;
      }
    }
  }

  /** Leaving the single quotes, a double-quoted single quote, and back. */
  lemma ReadQuoteInQuotes(tail: string, word: string)
    ensures Words(QUOTE_IN_QUOTES + tail, Some(word), Single) == Words(tail, Some(word + "'"), Single)
  {
    var s := QUOTE_IN_QUOTES + tail;
    assert s[1..] == "\"'\"'" + tail;
    assert s[1..][1..] == "'\"'" + tail;
    assert s[1..][1..][1..] == "\"'" + tail;
    assert s[1..][1..][1..][1..] == "'" + tail;
    assert s[1..][1..][1..][1..][1..] == tail;
    assert Words("'" + tail, Some(word + "'"), Unquoted) == Words(tail, Some(word + "'"), Single);
    assert Words("\"'" + tail, Some(word + "'"), Double) == Words("'" + tail, Some(word + "'"), Unquoted);
    assert Words("'\"'" + tail, Some(word), Double) == Words("\"'" + tail, Some(word + "'"), Double);
  }

  lemma EmptyIsRead(rest: string)
    ensures Words("''" + rest, None, Unquoted) == Words(rest, Some(""), Unquoted)
  {
    var s := "''" + rest;
    assert s[1..] == "'" + rest && s[1..][1..] == rest;
    assert Words(s[1..], Some(""), Single) == Words(rest, Some(""), Unquoted);
  }

  lemma OpenQuote(s: string)
    ensures Words("'" + s, None, Unquoted) == Words(s, Some(""), Single)
  {
    assert ("'" + s)[1..] == s;
  }

  /** A quoted value is read back as one word, also when it is empty. */
  lemma QuoteIsRead(value: string, rest: string)
    ensures Words(Quote(value) + rest, None, Unquoted) == Words(rest, Some(value), Unquoted)
  {
    hide Words, EscapeQuotes;
    assert "" + value == value;
    if value == "" {
      EmptyIsRead(rest);
    } else if AllSafe(value) {
      SafeRun(value, rest, None);
    } else {
      assert Quote(value) + rest == "'" + (EscapeQuotes(value) + "'" + rest);
      OpenQuote(EscapeQuotes(value) + "'" + rest);
      QuotedRun(value, rest, "");
    }
  }

  function QuoteAll(values: seq<string>): seq<string> {
    if |values| == 0 then [] else [Quote(values[0])] + QuoteAll(values[1..])
  }

  /** The shell reads a joined list of quoted values as exactly those values. */
  lemma {:induction false} JoinedIsRead(values: seq<string>)
    requires |values| > 0
    ensures Words(Join(QuoteAll(values), " "), None, Unquoted) == Some(values)
  {
    hide Quote;
    var first := values[0];
    if |values| == 1 {
      assert values == [first] && QuoteAll(values) == [Quote(first)];
      assert Quote(first) + "" == Quote(first);
      QuoteIsRead(first, "");
      assert Words("", Some(first), Unquoted) == Some([first]);
    } else {
      var tail := Join(QuoteAll(values[1..]), " ");
      JoinedIsRead(values[1..]);
      assert QuoteAll(values)[1..] == QuoteAll(values[1..]);
      assert Join(QuoteAll(values), " ") == Quote(first) + (" " + tail);
      QuoteIsRead(first, " " + tail);
      assert (" " + tail)[1..] == tail;
      assert [first] + values[1..] == values;
    }
  }

  // ----- The brain3 command -----

  const DEFAULT_HOST := "127.0.0.1"

  datatype LaunchMode = Tui | Cli | Setup | Reconfigure

  datatype Args = Args(host: string, envFile: Option<string>, brain3Home: Option<string>,
                       containerTag: Option<string>, gcContainers: bool)

  function ModeFlag(mode: LaunchMode): string {
    match mode
    case Tui => "--tui"
    case Cli => "--cli"
    case Setup => "--cloudflare-setup"
    case Reconfigure => "--setup"
  }

  function OptionWords(flag: string, value: Option<string>): seq<string> {
    if value.Some? then [flag, value.value] else []
  }

  /** The argument list the command stands for. */
  function ArgumentList(args: Args, mode: LaunchMode): seq<string> {
    ["brain3", ModeFlag(mode)]
    + OptionWords("--host", if args.host != DEFAULT_HOST then Some(args.host) else None)
    + OptionWords("--env-file", args.envFile)
    + OptionWords("--brain3-home", args.brain3Home)
    + OptionWords("--container-tag", args.containerTag)
    + if args.gcContainers then ["--gc-containers"] else []
  }

  lemma {:induction false} QuoteAllAppend(a: seq<string>, b: seq<string>)
    ensures QuoteAll(a + b) == QuoteAll(a) + QuoteAll(b)
  {
    if |a| == 0 {
      assert a + b == b;
    } else {
      assert (a + b)[1..] == a[1..] + b;
      QuoteAllAppend(a[1..], b);
    }
  }

  /** The flags themselves need no quoting. */
  lemma FlagsAreSafe()
    ensures AllSafe("brain3")
    ensures AllSafe("--host") && AllSafe("--env-file") && AllSafe("--brain3-home") && AllSafe("--container-tag")
    ensures AllSafe("--gc-containers")
  {
  }

  lemma ModeFlagsAreSafe(mode: LaunchMode)
    ensures AllSafe(ModeFlag(mode)) && ModeFlag(mode) != ""
  {
  }

  lemma SafeIsItself(flag: string)
    requires AllSafe(flag) && flag != ""
    ensures Quote(flag) == flag
  {
  }

  lemma PushedOption(parts: seq<string>, words: seq<string>, flag: string, value: Option<string>)
    requires parts == QuoteAll(words) && AllSafe(flag) && flag != ""
    ensures value.Some? ==> parts + [flag] + [Quote(value.value)] == QuoteAll(words + OptionWords(flag, value))
    ensures value.None? ==> parts == QuoteAll(words + OptionWords(flag, value))
  {
    hide Quote, AllSafe;
    SafeIsItself(flag);
    if value.Some? {
      QuoteAllAppend(words, [flag, value.value]);
      assert [flag, value.value][1..] == [value.value];
      assert QuoteAll([value.value]) == [Quote(value.value)];
    } else {
      assert words + [] == words;
    }
  }

  lemma PushedGc(parts: seq<string>, words: seq<string>)
    requires parts == QuoteAll(words)
    ensures parts + ["--gc-containers"] == QuoteAll(words + ["--gc-containers"])
  {
    hide Quote, AllSafe;
    FlagsAreSafe();
    SafeIsItself("--gc-containers");
    QuoteAllAppend(words, ["--gc-containers"]);
  }

  lemma QuotedMode(mode: LaunchMode)
    ensures ["brain3", ModeFlag(mode)] == QuoteAll(["brain3", ModeFlag(mode)])
  {
    hide Quote, AllSafe;
    FlagsAreSafe();
    ModeFlagsAreSafe(mode);
    SafeIsItself("brain3");
    SafeIsItself(ModeFlag(mode));
    assert ["brain3", ModeFlag(mode)][1..] == [ModeFlag(mode)];
    assert QuoteAll([ModeFlag(mode)]) == [ModeFlag(mode)];
  }

  /** `brain3_command_parts`. */
  method CommandParts(args: Args, mode: LaunchMode) returns (parts: seq<string>)
    ensures parts == QuoteAll(ArgumentList(args, mode))
  {
    hide Quote, QuoteAll, AllSafe;
    FlagsAreSafe();
    parts := ["brain3"];
    match mode {
      case Tui => parts := parts + ["--tui"];
      case Cli => parts := parts + ["--cli"];
      case Setup => parts := parts + ["--cloudflare-setup"];
      case Reconfigure => parts := parts + ["--setup"];
    }
    QuotedMode(mode);
    ghost var words := ["brain3", ModeFlag(mode)];
    ghost var host := if args.host != DEFAULT_HOST then Some(args.host) else None;
    PushedOption(parts, words, "--host", host);
    if args.host != DEFAULT_HOST {
      parts := parts + ["--host"];
      parts := parts + [Quote(args.host)];
    }
    words := words + OptionWords("--host", host);
    assert parts == QuoteAll(words);
    PushedOption(parts, words, "--env-file", args.envFile);
    if args.envFile.Some? {
      parts := parts + ["--env-file"];
      parts := parts + [Quote(args.envFile.value)];
    }
    words := words + OptionWords("--env-file", args.envFile);
    assert parts == QuoteAll(words);
    PushedOption(parts, words, "--brain3-home", args.brain3Home);
    if args.brain3Home.Some? {
      parts := parts + ["--brain3-home"];
      parts := parts + [Quote(args.brain3Home.value)];
    }
    words := words + OptionWords("--brain3-home", args.brain3Home);
    assert parts == QuoteAll(words);
    PushedOption(parts, words, "--container-tag", args.containerTag);
    if args.containerTag.Some? {
      parts := parts + ["--container-tag"];
      parts := parts + [Quote(args.containerTag.value)];
    }
    words := words + OptionWords("--container-tag", args.containerTag);
    assert parts == QuoteAll(words);
    if args.gcContainers {
      PushedGc(parts, words);
      parts := parts + ["--gc-containers"];
    }
    assert words + [] == words;
    words := words + if args.gcContainers then ["--gc-containers"] else [];
    assert words == ArgumentList(args, mode);
  }

  // ----- Reading the argument list as options -----

  datatype Parsed = Parsed(args: Args, modeFlags: seq<string>, gcFlags: nat)

  /** Options from the left; each option with a value takes the word after it. */
  function ReadOptions(words: seq<string>, p: Parsed): Option<Parsed>
    decreases |words|
  {
    if |words| == 0 then Some(p)
    else if words[0] == "--gc-containers" then
      ReadOptions(words[1..], Parsed(p.args.(gcContainers := true), p.modeFlags, p.gcFlags + 1))
    else if words[0] in {"--tui", "--cli", "--cloudflare-setup", "--setup"} then
      ReadOptions(words[1..], p.(modeFlags := p.modeFlags + [words[0]]))
    else if |words| == 1 then None
    else
      var value, rest := words[1], words[2..];
      if words[0] == "--host" then ReadOptions(rest, p.(args := p.args.(host := value)))
      else if words[0] == "--env-file" then ReadOptions(rest, p.(args := p.args.(envFile := Some(value))))
      else if words[0] == "--brain3-home" then ReadOptions(rest, p.(args := p.args.(brain3Home := Some(value))))
      else if words[0] == "--container-tag" then ReadOptions(rest, p.(args := p.args.(containerTag := Some(value))))
      else None
  }

  /** `choose_launch_mode`; the mode flags exclude each other. */
  function ChooseLaunchMode(flags: seq<string>): Option<LaunchMode> {
    if |flags| > 1 then None
    else if "--setup" in flags then Some(Reconfigure)
    else if "--cloudflare-setup" in flags then Some(Setup)
    else if "--cli" in flags then Some(Cli)
    else Some(Tui)
  }

  /** What a command line starts, as the shell, the option parser and the choice of the mode read it. */
  function Launched(line: string): Option<(Args, LaunchMode)> {
    match Words(line, None, Unquoted)
    case None => None
    case Some(words) => if |words| == 0 || words[0] != "brain3" then None else Started(words[1..])
  }

  function Started(words: seq<string>): Option<(Args, LaunchMode)> {
    var parsed := ReadOptions(words, Parsed(Args("127.0.0.1", None, None, None, false), [], 0));
    if parsed.None? || parsed.value.gcFlags > 1 || ChooseLaunchMode(parsed.value.modeFlags).None? then None
    else Some((parsed.value.args, ChooseLaunchMode(parsed.value.modeFlags).value))
  }

  lemma ReadOption(flag: string, value: Option<string>, rest: seq<string>, p: Parsed)
    requires flag in {"--host", "--env-file", "--brain3-home", "--container-tag"}
    ensures ReadOptions(OptionWords(flag, value) + rest, p)
         == if value.None? then ReadOptions(rest, p)
            else if flag == "--host" then ReadOptions(rest, p.(args := p.args.(host := value.value)))
            else if flag == "--env-file" then ReadOptions(rest, p.(args := p.args.(envFile := value)))
            else if flag == "--brain3-home" then ReadOptions(rest, p.(args := p.args.(brain3Home := value)))
            else ReadOptions(rest, p.(args := p.args.(containerTag := value)))
  {
    if value.None? {
      assert OptionWords(flag, value) + rest == rest;
    } else {
      assert (OptionWords(flag, value) + rest)[2..] == rest;
    }
  }

  lemma ReadMode(mode: LaunchMode, rest: seq<string>, p: Parsed)
    requires p.modeFlags == []
    ensures ReadOptions([ModeFlag(mode)] + rest, p) == ReadOptions(rest, p.(modeFlags := [ModeFlag(mode)]))
    ensures ChooseLaunchMode([ModeFlag(mode)]) == Some(mode)
  {
    assert ([ModeFlag(mode)] + rest)[1..] == rest;
    assert [] + [ModeFlag(mode)] == [ModeFlag(mode)];
  }

  /** The options read from the argument list are the arguments, one mode flag, and the flag once exactly when it is set. */
  lemma ArgumentListIsRead(args: Args, mode: LaunchMode)
    ensures |ArgumentList(args, mode)| > 0 && ArgumentList(args, mode)[0] == "brain3"
    ensures ReadOptions(ArgumentList(args, mode)[1..], Parsed(Args("127.0.0.1", None, None, None, false), [], 0))
         == Some(Parsed(args, [ModeFlag(mode)], if args.gcContainers then 1 else 0))
  {
    hide ReadOptions, OptionWords, ModeFlag, ChooseLaunchMode;
    var start := Parsed(Args("127.0.0.1", None, None, None, false), [], 0);
    var gc := if args.gcContainers then ["--gc-containers"] else [];
    var host := if args.host != DEFAULT_HOST then Some(args.host) else None;
    var r3 := OptionWords("--container-tag", args.containerTag) + gc;
    var r2 := OptionWords("--brain3-home", args.brain3Home) + r3;
    var r1 := OptionWords("--env-file", args.envFile) + r2;
    var r0 := OptionWords("--host", host) + r1;
    assert ArgumentList(args, mode) == ["brain3", ModeFlag(mode)] + r0;
    assert ArgumentList(args, mode)[1..] == [ModeFlag(mode)] + r0;
    ReadMode(mode, r0, start);
    var p0 := start.(modeFlags := [ModeFlag(mode)]);
    ReadOption("--host", host, r1, p0);
    var p1 := p0.(args := p0.args.(host := args.host));
    ReadOption("--env-file", args.envFile, r2, p1);
    var p2 := p1.(args := p1.args.(envFile := args.envFile));
    ReadOption("--brain3-home", args.brain3Home, r3, p2);
    var p3 := p2.(args := p2.args.(brain3Home := args.brain3Home));
    ReadOption("--container-tag", args.containerTag, gc, p3);
    ReadGc(args.gcContainers, p3.(args := p3.args.(containerTag := args.containerTag)));
  }

  lemma ReadGc(gc: bool, p: Parsed)
    ensures ReadOptions(if gc then ["--gc-containers"] else [], p)
         == Some(if gc then p.(args := p.args.(gcContainers := true), gcFlags := p.gcFlags + 1) else p)
  {
  }

  /** A command line that reads as the argument list starts what the arguments and the mode say. */
  lemma ArgumentListStarts(line: string, args: Args, mode: LaunchMode)
    requires Words(line, None, Unquoted) == Some(ArgumentList(args, mode))
    ensures Launched(line) == Some((args, mode))
  {
    hide Words, ReadOptions, ArgumentList;
    ArgumentListIsRead(args, mode);
    ReadMode(mode, [], Parsed(args, [], 0));
  }

  /** The re-run command asks for garbage collection, once, and changes nothing else. */
  lemma RerunAsksOnce(args: Args, mode: LaunchMode)
    ensures ReadOptions(ArgumentList(args.(gcContainers := true), mode)[1..],
                        Parsed(Args("127.0.0.1", None, None, None, false), [], 0))
         == Some(Parsed(args.(gcContainers := true), [ModeFlag(mode)], 1))
  {
    ArgumentListIsRead(args.(gcContainers := true), mode);
  }

  // ----- The printed commands -----

  /** `brain3_command`: run by a shell, the printed command starts the same mode with the same arguments. */
  method Command(args: Args, mode: LaunchMode) returns (line: string)
    ensures Words(line, None, Unquoted) == Some(ArgumentList(args, mode))
    ensures Launched(line) == Some((args, mode))
  {
    hide Words, Quote, Launched, ArgumentList;
    var parts := CommandParts(args, mode);
    ArgumentListIsRead(args, mode);
    JoinedIsRead(ArgumentList(args, mode));
    line := Join(parts, " ");
    ArgumentListStarts(line, args, mode);
  }

  /** `gc_containers_rerun_command`: the same command, with the flag added if it was not there. */
  method GcContainersRerunCommand(args: Args, mode: LaunchMode) returns (line: string)
    ensures Words(line, None, Unquoted) == Some(ArgumentList(args.(gcContainers := true), mode))
    ensures Launched(line) == Some((args.(gcContainers := true), mode))
  {
    hide Words, Quote, QuoteAll, Launched, ArgumentList;
    var parts := CommandParts(args, mode);
    if !args.gcContainers {
      GcIsLast(args, mode);
      PushedGc(parts, ArgumentList(args, mode));
      parts := parts + ["--gc-containers"];
    } else {
      assert args.(gcContainers := true) == args;
    }
    ArgumentListIsRead(args.(gcContainers := true), mode);
    JoinedIsRead(ArgumentList(args.(gcContainers := true), mode));
    line := Join(parts, " ");
    ArgumentListStarts(line, args.(gcContainers := true), mode);
  }

  lemma GcIsLast(args: Args, mode: LaunchMode)
    requires !args.gcContainers
    ensures ArgumentList(args.(gcContainers := true), mode) == ArgumentList(args, mode) + ["--gc-containers"]
  {
    hide OptionWords, ModeFlag;
    var before := ["brain3", ModeFlag(mode)]
      + OptionWords("--host", if args.host != DEFAULT_HOST then Some(args.host) else None)
      + OptionWords("--env-file", args.envFile)
      + OptionWords("--brain3-home", args.brain3Home)
      + OptionWords("--container-tag", args.containerTag);
    assert ArgumentList(args, mode) == before + [] == before;
  }
}
