/** What parsing promises: canonical forms, reachability, and the correspondence of the two styles. */
module Parsing {
  import opened Commands
  import opened Text
  import opened Wrappers

  /** A name that can be typed as one word. */
  predicate IsWord(name: string) {
    name != "" && NoWhite(name)
  }

  /** Nothing, or something set off by whitespace. */
  predicate IsSetOff(rest: string) {
    rest == "" || IsWhite(rest[0])
  }

  /** The canonical text of a parsed command. */
  function Render(style: CommandStyle, parsed: ParsedCommand): string {
    match parsed
    case Help => FormatCommand(style, HELP_COMMAND_NAME)
    case Registered(name, args) => FormatCommand(style, name) + if args == "" then "" else " " + args
    case Unknown(name, args) => FormatCommand(style, name) + if args == "" then "" else " " + args
    case NoCommand(text) => text
  }

  // ---- One account of both styles ----

  /** What a command name with arguments means, in a text that trims to `trimmed`. */
  function Meaning(registry: Registry, name: string, args: string, trimmed: string): ParsedCommand {
    if name == HELP_COMMAND_NAME then Help
    else if Knows(registry, name) then Registered(name, args)
    else if registry.style.Slash? then Unknown(name, args)
    else NoCommand(trimmed)
  }

  /** The first word of `body` is the name; without one there is no command. */
  function Interpret(registry: Registry, body: string, trimmed: string): ParsedCommand {
    match FirstWord(body)
    case None => NoCommand(trimmed)
    case Some(name) => Meaning(registry, name, ArgsAfter(body, name), trimmed)
  }

  lemma InterpretsSetOff(registry: Registry, name: string, rest: string, trimmed: string)
    requires IsWord(name) && IsSetOff(rest)
    ensures Interpret(registry, name + rest, trimmed) == Meaning(registry, name, Trim(rest), trimmed)
  {
    LeadingWordIs(name, rest);
    assert name <= name + rest && (name + rest)[|name|..] == rest;
  }

  lemma ParsesSlash(registry: Registry, text: string, body: string)
    requires registry.style.Slash? && Trim(text) == "/" + body
    ensures Parse(registry, text) == Interpret(registry, body, Trim(text))
  {
    assert ("/" + body)[|"/"|..] == body;
  }

  lemma ParsesWord(registry: Registry, text: string)
    requires registry.style.Word?
    ensures Parse(registry, text) == Interpret(registry, Trim(text), Trim(text))
  {}

  lemma ParsesAfterSlash(registry: Registry, name: string, rest: string)
    requires registry.style.Slash? && IsWord(name) && IsSetOff(rest)
    ensures Parse(registry, "/" + name + rest) == Meaning(registry, name, Trim(rest), Trim("/" + name + rest))
  {
    var command, text, end := "/" + name, "/" + name + rest, TrimEnd(rest);
    assert command[|command| - 1] == name[|name| - 1] && text[0] == '/';
    TrimEndBehind(command, rest);
    assert command + end == "/" + (name + end);
    ParsesSlash(registry, text, name + end);
    InterpretsSetOff(registry, name, end, Trim(text));
    TrimOfTrimEnd(rest);
  }

  lemma ParsesInWords(registry: Registry, name: string, rest: string)
    requires registry.style.Word? && IsWord(name) && IsSetOff(rest)
    ensures Parse(registry, name + rest) == Meaning(registry, name, Trim(rest), Trim(name + rest))
  {
    var text, end := name + rest, TrimEnd(rest);
    assert text[0] == name[0];
    TrimEndBehind(name, rest);
    ParsesWord(registry, text);
    InterpretsSetOff(registry, name, end, Trim(text));
    TrimOfTrimEnd(rest);
  }

  /** A formatted name parses to its meaning, with whatever is set off behind it as arguments. */
  lemma ParsesFormatted(registry: Registry, name: string, rest: string)
    requires IsWord(name) && IsSetOff(rest)
    ensures var text := FormatCommand(registry.style, name) + rest;
            Parse(registry, text) == Meaning(registry, name, Trim(rest), Trim(text))
  {
    match registry.style {
      case Slash => ParsesAfterSlash(registry, name, rest);
      case Word => ParsesInWords(registry, name, rest);
    }
  }

  lemma HelpIsAWord()
    ensures IsWord(HELP_COMMAND_NAME)
  {}

  /** Names in results are words, and arguments are trimmed. */
  lemma {:induction false} ResultShape(registry: Registry, text: string)
    ensures var r := Parse(registry, text);
            && (r.Registered? || r.Unknown? ==> IsWord(r.name) && IsTrimmed(r.args) && r.name != HELP_COMMAND_NAME)
            && (r.Registered? ==> IsRegistered(registry, r.name))
            && (r.Unknown? ==> registry.style.Slash? && !IsRegistered(registry, r.name))
            && (r.NoCommand? ==> r.text == Trim(text))
  {
    var trimmed := Trim(text);
    var body := if registry.style.Word? then Some(trimmed) else StripPrefix(trimmed, "/");
    if body.Some? && FirstWord(body.value).Some? {
      var name := FirstWord(body.value).value;
      LeadingWordNonempty(TrimStart(body.value));
      match StripPrefix(body.value, name) {
        case Some(rest) => TrimTrims(rest);
        case None =>
      }
    }
  }

  /** Rendering what was parsed, and parsing that, gives the same again. */
  lemma {:induction false} Canonical(registry: Registry, text: string)
    ensures Parse(registry, Render(registry.style, Parse(registry, text))) == Parse(registry, text)
  {
    var r := Parse(registry, text);
    ResultShape(registry, text);
    match r {
      case NoCommand(t) => TrimTrims(text); TrimTrims(t);
      case Help =>
        HelpIsAWord();
        ParsesFormatted(registry, HELP_COMMAND_NAME, "");
        var command := FormatCommand(registry.style, HELP_COMMAND_NAME);
        assert command + "" == command;
      case Registered(name, args) => RendersBack(registry, name, args);
      case Unknown(name, args) => RendersBack(registry, name, args);
    }
  }

  lemma {:induction false} RendersBack(registry: Registry, name: string, args: string)
    requires IsWord(name) && IsTrimmed(args)
    ensures var text := FormatCommand(registry.style, name) + if args == "" then "" else " " + args;
            Parse(registry, text) == Meaning(registry, name, args, Trim(text))
  {
    if args == "" {
      ParsesFormatted(registry, name, "");
    } else {
      ParsesFormatted(registry, name, " " + args);
      TrimDrops(" ", args);
      TrimTrims(args);
    }
  }

  // ---- What becomes of the text ----

  /** The text is `prefix`, whitespace or none, `name`, and a `rest` that is set off or empty. */
  ghost predicate Divides(trimmed: string, prefix: string, white: string, name: string, rest: string) {
    AllWhite(white) && IsSetOff(rest) && trimmed == prefix + (white + (name + rest))
  }

  lemma DividesBody(body: string) returns (white: string, rest: string)
    requires FirstWord(body).Some?
    ensures AllWhite(white) && IsSetOff(rest) && body == white + (FirstWord(body).value + rest)
  {
    TrimStartSplits(body);
    var front :| AllWhite(front) && body == front + TrimStart(body);
    var t, name := TrimStart(body), FirstWord(body).value;
    white, rest := front, t[|name|..];
    assert t == name + rest;
  }

  lemma FirstWordBehind(white: string, name: string, rest: string)
    requires AllWhite(white) && IsWord(name) && IsSetOff(rest)
    ensures FirstWord(white + (name + rest)) == Some(name)
  {
    TrimStartDrops(white, name + rest);
    LeadingWordIs(name, rest);
  }

  /** The arguments are what stands behind the name, unless whitespace stands before it. */
  lemma ArgsOfBody(white: string, name: string, rest: string)
    requires AllWhite(white) && IsWord(name) && IsSetOff(rest)
    ensures ArgsAfter(white + (name + rest), name) == if white == "" then Trim(rest) else ""
  {
    var body := white + (name + rest);
    if white == "" {
      assert body == name + rest && body[|name|..] == rest;
    } else {
      assert body[0] == white[0] && name[0] != body[0];
    }
  }

  /**
   * What every text that holds a word parses to, however it is divided around that word. The word
   * is `help`, a registered name, an unknown command (in slash style) or no command (in word style).
   */
  lemma {:induction false} ParsesDivided(registry: Registry, text: string, white: string, name: string, rest: string)
    requires IsWord(name)
    requires Divides(Trim(text), if registry.style.Slash? then "/" else "", white, name, rest)
    ensures var args := if white == "" then Trim(rest) else "";
            Parse(registry, text) ==
              if name == "help" then Help
              else if IsRegistered(registry, name) then Registered(name, args)
              else if registry.style.Slash? then Unknown(name, args)
              else NoCommand(Trim(text))
  {
    var body := white + (name + rest);
    FirstWordBehind(white, name, rest);
    ArgsOfBody(white, name, rest);
    if registry.style.Slash? {
      ParsesSlash(registry, text, body);
    } else {
      assert "" + body == body;
      ParsesWord(registry, text);
    }
  }

  /** There is no slash or nothing behind it; in word style, there is nothing at all. */
  predicate HoldsNoWord(registry: Registry, trimmed: string) {
    if registry.style.Slash? then !("/" <= trimmed) || trimmed == "/" else trimmed == ""
  }

  /** All other texts are no command. */
  lemma HoldsNoCommand(registry: Registry, text: string)
    requires HoldsNoWord(registry, Trim(text))
    ensures Parse(registry, text) == NoCommand(Trim(text))
  {
    if Trim(text) == "/" {
      assert "/"[1..] == "";
    }
  }

  lemma WordIn(body: string) returns (white: string, name: string, rest: string)
    requires body != "" && !IsWhite(body[|body| - 1])
    ensures IsWord(name) && AllWhite(white) && IsSetOff(rest) && body == white + (name + rest)
  {
    TrimStartKeepsEnd(body, "");
    LeadingWordNonempty(TrimStart(body));
    name := FirstWord(body).value;
    white, rest := DividesBody(body);
  }

  /** Every text holds a word that `ParsesDivided` speaks of, or none at all. */
  lemma HoldsWord(registry: Registry, text: string) returns (white: string, name: string, rest: string)
    requires !HoldsNoWord(registry, Trim(text))
    ensures IsWord(name) && Divides(Trim(text), if registry.style.Slash? then "/" else "", white, name, rest)
  {
    var t := Trim(text);
    TrimTrims(text);
    if registry.style.Slash? {
      assert t == "/" + t[1..] && t[1..][|t| - 2] == t[|t| - 1];
      white, name, rest := WordIn(t[1..]);
    } else {
      white, name, rest := WordIn(t);
      assert t == "" + (white + (name + rest));
    }
  }

  /** What is interpreted: the trimmed text behind the prefix. */
  lemma Bodies(registry: Registry, text: string) returns (body: string)
    requires Parse(registry, text).Registered? || Parse(registry, text).Unknown?
    ensures Trim(text) == PrefixOf(registry.style) + body
    ensures Parse(registry, text) == Interpret(registry, body, Trim(text))
  {
    match registry.style {
      case Word =>
        body := Trim(text);
        ParsesWord(registry, text);
      case Slash =>
        body := Trim(text)[1..];
        ParsesSlash(registry, text, body);
    }
  }

  lemma InterpretsName(registry: Registry, body: string, trimmed: string)
    requires Interpret(registry, body, trimmed).Registered? || Interpret(registry, body, trimmed).Unknown?
    ensures var r := Interpret(registry, body, trimmed);
            FirstWord(body) == Some(r.name) && r.args == ArgsAfter(body, r.name)
  {}

  /** The name of a parsed command stands in the text, at most whitespace apart from the prefix. */
  lemma {:induction false} NameIsInText(registry: Registry, text: string) returns (white: string, rest: string)
    requires Parse(registry, text).Registered? || Parse(registry, text).Unknown?
    ensures Divides(Trim(text), PrefixOf(registry.style), white, Parse(registry, text).name, rest)
  {
    var body := Bodies(registry, text);
    InterpretsName(registry, body, Trim(text));
    white, rest := DividesBody(body);
  }

  /**
   * However the text is divided around the name: the arguments are the trimmed text behind the
   * name in word style; in slash style, exactly if no whitespace follows the slash or there is
   * nothing but whitespace behind the name. Otherwise what stands there is dropped.
   */
  lemma {:induction false} ArgsAreTheRestIff(registry: Registry, text: string, white: string, rest: string)
    requires Parse(registry, text).Registered? || Parse(registry, text).Unknown?
    requires Divides(Trim(text), PrefixOf(registry.style), white, Parse(registry, text).name, rest)
    ensures var (r, t) := (Parse(registry, text), Trim(text));
            && |t| > |PrefixOf(registry.style)|
            && (r.args == Trim(rest) <==> registry.style.Word? || !IsWhite(t[1]) || Trim(rest) == "")
            && (r.args != Trim(rest) ==> r.args == "")
  {
    var r, t := Parse(registry, text), Trim(text);
    var body := Bodies(registry, text);
    InterpretsName(registry, body, Trim(text));
    ResultShape(registry, text);
    TrimTrims(text);
    SamePrefix(PrefixOf(registry.style), body, white + (r.name + rest));
    ArgsOfBody(white, r.name, rest);
    assert t[|PrefixOf(registry.style)|] == if white == "" then r.name[0] else white[0];
  }

  lemma SamePrefix(prefix: string, a: string, b: string)
    requires prefix + a == prefix + b
    ensures a == b
  {
    assert (prefix + a)[|prefix|..] == a && (prefix + b)[|prefix|..] == b;
  }

  /** The family of inputs that lose their arguments: a space behind the slash. */
  lemma SpaceBehindSlashDropsArgs(registry: Registry, name: string, args: string)
    requires registry.style.Slash? && IsWord(name)
    ensures var text := "/" + (" " + (name + (" " + args)));
            Parse(registry, text) == Meaning(registry, name, "", Trim(text))
  {
    var end := TrimEnd(" " + args);
    var body := " " + (name + end);
    SpacedTrim(name, " " + args);
    ParsesSlash(registry, "/" + (" " + (name + (" " + args))), body);
    FirstWordBehind(" ", name, end);
    ArgsOfBody(" ", name, end);
  }

  lemma {:induction false} SpacedTrim(name: string, rest: string)
    requires IsWord(name)
    ensures Trim("/" + (" " + (name + rest))) == "/" + (" " + (name + TrimEnd(rest)))
  {
    TrimEndBehind(name, rest);
    TrimEndAhead(" ", name + rest);
    TrimEndAhead("/", " " + (name + rest));
    assert ("/" + (" " + (name + rest)))[0] == '/';
  }

  // ---- Reachability ----

  lemma TypedMeaning(registry: Registry, name: string, args: string)
    requires IsWord(name)
    ensures var text := FormatCommand(registry.style, name) + " " + args;
            Parse(registry, text) == Meaning(registry, name, Trim(args), Trim(text))
  {
    var command := FormatCommand(registry.style, name);
    assert command + " " + args == command + (" " + args);
    ParsesFormatted(registry, name, " " + args);
    TrimDrops(" ", args);
  }

  /** Every way to type a registered word reaches it; `help` is reached in any registry. */
  lemma Reaches(registry: Registry, name: string, args: string)
    requires IsWord(name)
    ensures var r := Parse(registry, FormatCommand(registry.style, name) + " " + args);
            && (name == HELP_COMMAND_NAME ==> r == Help)
            && (name != HELP_COMMAND_NAME && IsRegistered(registry, name) ==> r == Registered(name, Trim(args)))
  {
    TypedMeaning(registry, name, args);
  }

  lemma NeverHelp(registry: Registry, name: string)
    requires Wellformed(registry) && IsRegistered(registry, name)
    ensures name != HELP_COMMAND_NAME
  {}

  /** In a validated registry, a registered name can be reached exactly if it is a word. */
  lemma ReachableIff(registry: Registry, name: string)
    requires Wellformed(registry) && IsRegistered(registry, name)
    ensures (exists text, args :: Parse(registry, text) == Registered(name, args)) <==> IsWord(name)
  {
    if IsWord(name) {
      NeverHelp(registry, name);
      Reaches(registry, name, "");
      assert Parse(registry, FormatCommand(registry.style, name) + " " + "") == Registered(name, Trim(""));
    } else {
      forall text, args ensures Parse(registry, text) != Registered(name, args) {
        ResultShape(registry, text);
      }
    }
  }

  // ---- The two styles ----

  /** A slash command as the word style sees it, which takes the unknown ones for plain text. */
  function InWords(parsed: ParsedCommand, text: string): ParsedCommand {
    if parsed.Unknown? then NoCommand(text) else parsed
  }

  lemma TrimmedBehindSlash(t: string)
    requires t != "" && IsTrimmed(t)
    ensures Trim("/" + t) == "/" + t
  {
    TrimTrims("/" + t);
  }

  lemma InterpretationsCorrespond(registry: Registry, t: string)
    requires t != "" && IsTrimmed(t)
    ensures var slash := Interpret(registry.(style := Slash), t, "/" + t);
            !slash.NoCommand? && Interpret(registry.(style := Word), t, t) == InWords(slash, t)
  {
    assert FirstWord(t) == Some(LeadingWord(t));
  }

  lemma {:induction false} StylesCorrespond(registry: Registry, text: string)
    requires Trim(text) != ""
    ensures var slash := Parse(registry.(style := Slash), "/" + Trim(text));
            !slash.NoCommand? && Parse(registry.(style := Word), text) == InWords(slash, Trim(text))
  {
    TrimTrims(text);
    TrimmedBehindSlash(Trim(text));
    ParsesSlash(registry.(style := Slash), "/" + Trim(text), Trim(text));
    ParsesWord(registry.(style := Word), text);
    InterpretationsCorrespond(registry, Trim(text));
  }
}
