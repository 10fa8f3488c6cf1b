/** Reading a help text back: it shows exactly the visible commands, section by section, in order. */
module HelpDecoding {
  import opened Commands
  import opened Help
  import opened Text
  import opened Visibility
  import opened Wrappers

  // ---- The decoder ----

  function IndexOfStar(s: string): (k: nat)
    ensures k <= |s|
  {
    if s == "" || s[0] == '*' then 0 else 1 + IndexOfStar(s[1..])
  }

  function DecodeEntry(prefix: string, line: string): Option<CustomCommand> {
    match StripPrefix(line, "*" + prefix)
    case None => None
    case Some(rest) =>
      var k := IndexOfStar(rest);
      match StripPrefix(rest[k..], "* - _")
      case None => None
      case Some(tail) => if EndsInUnderscore(tail) then Some(CustomCommand(rest[..k], tail[..|tail| - 1])) else None
  }

  /** Reads entries until an empty line, a line that is no entry, or the end. */
  function DecodeEntries(prefix: string, lines: seq<string>): (r: (seq<CustomCommand>, seq<string>))
    ensures |r.1| <= |lines|
  {
    if lines == [] || lines[0] == "" then ([], lines) else
    match DecodeEntry(prefix, lines[0])
    case None => ([], lines)
    case Some(entry) =>
      var (entries, rest) := DecodeEntries(prefix, lines[1..]);
      ([entry] + entries, rest)
  }

  /** Reads sections, each headed by an empty line, a title with a colon, and an empty line. */
  function DecodeSections(prefix: string, lines: seq<string>): seq<Section>
    decreases |lines|
  {
    if |lines| < 3 || lines[1] == "" then [] else
    var title := lines[1][..|lines[1]| - 1];
    var (entries, rest) := DecodeEntries(prefix, lines[3..]);
    [Section(Some(title), entries)] + DecodeSections(prefix, rest)
  }

  /** What follows the first header line. */
  function AfterHeader(lines: seq<string>): seq<string> {
    if lines == [] then [] else if lines[0] == HEADER then lines[1..] else AfterHeader(lines[1..])
  }

  /** Skips the empty line and the `help` entry behind the header, and reads the sections. */
  function DecodeHelp(style: CommandStyle, text: string): seq<Section> {
    var lines := AfterHeader(SplitLines(text + "\n"));
    if |lines| < 2 then [] else
    var (entries, rest) := DecodeEntries(PrefixOf(style), lines[2..]);
    [Section(None, entries)] + DecodeSections(PrefixOf(style), rest)
  }

  // ---- Texts that can be decoded ----

  predicate IsPlain(command: CustomCommand) {
    IsLine(command.name) && '*' !in command.name && IsLine(command.description)
  }

  ghost predicate AllPlain(commands: seq<CustomCommand>) {
    forall i :: 0 <= i < |commands| ==> IsPlain(commands[i])
  }

  /** One line each, no star in a name, and no line of the description that looks like the header. */
  ghost predicate IsDecodable(registry: Registry) {
    && (registry.description.Some? ==> HEADER !in SplitLines(registry.description.value + "\n"))
    && AllPlain(registry.registered)
    && forall g :: 0 <= g < |registry.groups| ==>
         IsLine(registry.groups[g].title) && AllPlain(registry.groups[g].commands)
  }

  ghost predicate PlainSection(section: Section) {
    AllPlain(section.entries) && (section.title.Some? ==> IsLine(section.title.value))
  }

  ghost predicate PlainSections(sections: seq<Section>) {
    forall i :: 0 <= i < |sections| ==> PlainSection(sections[i])
  }

  lemma {:induction false} VisiblePlain(commands: seq<CustomCommand>, v: VisibilityState, group: Option<string>)
    requires AllPlain(commands)
    ensures AllPlain(VisibleIn(commands, v, group))
  {
    if commands != [] {
      VisiblePlain(commands[1..], v, group);
    }
  }

  lemma {:induction false} GroupsPlain(groups: seq<CommandGroup>, v: VisibilityState)
    requires forall g :: 0 <= g < |groups| ==> IsLine(groups[g].title) && AllPlain(groups[g].commands)
    ensures PlainSections(VisibleGroups(groups, v))
    ensures forall i :: 0 <= i < |VisibleGroups(groups, v)| ==> VisibleGroups(groups, v)[i].title.Some?
  {
    if groups != [] {
      GroupsPlain(groups[1..], v);
      VisiblePlain(groups[0].commands, v, Some(groups[0].id));
    }
  }

  // ---- Decoding line by line ----

  lemma {:induction false} FindsStar(name: string, rest: string)
    requires '*' !in name && rest != "" && rest[0] == '*'
    ensures IndexOfStar(name + rest) == |name|
  {
    if name == "" {
      assert name + rest == rest;
    } else {
      assert (name + rest)[1..] == name[1..] + rest;
      FindsStar(name[1..], rest);
    }
  }

  lemma Strips(prefix: string, rest: string)
    ensures StripPrefix(prefix + rest, prefix) == Some(rest)
  {
    assert prefix <= prefix + rest && (prefix + rest)[|prefix|..] == rest;
  }

  lemma DecodesEntry(prefix: string, command: CustomCommand)
    requires '*' !in command.name
    ensures DecodeEntry(prefix, EntryLine(prefix, command)) == Some(command)
  {
    var tail := command.description + "_";
    var marked := "* - _" + tail;
    assert EntryLine(prefix, command) == "*" + prefix + (command.name + marked);
    Strips("*" + prefix, command.name + marked);
    FindsStar(command.name, marked);
    assert (command.name + marked)[|command.name|..] == marked;
    assert (command.name + marked)[..|command.name|] == command.name;
    Strips("* - _", tail);
    assert tail[..|tail| - 1] == command.description;
  }

  lemma {:induction false} DecodesEntries(prefix: string, commands: seq<CustomCommand>, rest: seq<string>)
    requires AllPlain(commands) && (rest == [] || rest[0] == "")
    ensures DecodeEntries(prefix, EntryLines(prefix, commands) + rest) == (commands, rest)
  {
    var lines := EntryLines(prefix, commands) + rest;
    if commands == [] {
      assert lines == rest;
    } else {
      var line, tail := EntryLine(prefix, commands[0]), EntryLines(prefix, commands[1..]) + rest;
      assert lines == [line] + tail;
      assert line[0] == '*' && lines[1..] == tail;
      assert DecodeEntry(prefix, line) == Some(commands[0]) by {
        assert IsPlain(commands[0]);
        DecodesEntry(prefix, commands[0]);
      }
      DecodesEntries(prefix, commands[1..], rest);
      assert [commands[0]] + commands[1..] == commands;
    }
  }

  lemma DecodesSection(prefix: string, section: Section, rest: seq<string>)
    requires PlainSection(section) && section.title.Some? && (rest == [] || rest[0] == "")
    ensures var lines := SectionLines(prefix, section) + rest;
            && lines[0] == "" && DecodeSections(prefix, lines) == [section] + DecodeSections(prefix, rest)
  {
    var title, entries := section.title.value, section.entries;
    var body := EntryLines(prefix, entries) + rest;
    var lines := SectionLines(prefix, section) + rest;
    assert lines == ["", title + ":", ""] + body;
    assert lines[3..] == body;
    assert lines[1][..|lines[1]| - 1] == title;
    assert DecodeEntries(prefix, lines[3..]) == (entries, rest) by {
      DecodesEntries(prefix, entries, rest);
    }
  }

  lemma {:induction false} DecodesSections(prefix: string, sections: seq<Section>)
    requires PlainSections(sections) && forall i :: 0 <= i < |sections| ==> sections[i].title.Some?
    ensures DecodeSections(prefix, AllSectionLines(prefix, sections)) == sections
    ensures sections != [] ==> AllSectionLines(prefix, sections) != [] && AllSectionLines(prefix, sections)[0] == ""
    decreases |sections|
  {
    if sections != [] {
      DecodesSections(prefix, sections[1..]);
      assert PlainSection(sections[0]);
      DecodesSection(prefix, sections[0], AllSectionLines(prefix, sections[1..]));
      assert [sections[0]] + sections[1..] == sections;
    }
  }

  lemma {:induction false} FindsHeader(before: seq<string>, after: seq<string>)
    requires HEADER !in before
    ensures AfterHeader(before + [HEADER] + after) == after
  {
    if before == [] {
      assert before + [HEADER] + after == [HEADER] + after;
    } else {
      assert (before + [HEADER] + after)[1..] == before[1..] + [HEADER] + after;
      FindsHeader(before[1..], after);
    }
  }

  // ---- Every line is one line ----

  ghost predicate AllLines(lines: seq<string>) {
    forall i :: 0 <= i < |lines| ==> IsLine(lines[i])
  }

  lemma {:induction false} EntriesAreLines(prefix: string, commands: seq<CustomCommand>)
    requires IsLine(prefix) && AllPlain(commands)
    ensures AllLines(EntryLines(prefix, commands))
  {
    if commands != [] {
      assert IsPlain(commands[0]);
      EntriesAreLines(prefix, commands[1..]);
    }
  }

  lemma {:induction false} SectionsAreLines(prefix: string, sections: seq<Section>)
    requires IsLine(prefix) && PlainSections(sections)
    ensures AllLines(AllSectionLines(prefix, sections))
    decreases |sections|
  {
    if sections != [] {
      assert PlainSection(sections[0]);
      EntriesAreLines(prefix, sections[0].entries);
      SectionsAreLines(prefix, sections[1..]);
    }
  }

  lemma PreambleShape(registry: Registry) returns (before: seq<string>)
    requires IsDecodable(registry)
    ensures AllLines(before) && HEADER !in before
    ensures PreambleLines(registry) == before + [HEADER, "", EntryLine(PrefixOf(registry.style), HELP_ENTRY)]
  {
    before := [];
    if registry.description.Some? {
      var text := registry.description.value + "\n";
      SplitIsTerminated(text);
      before := SplitLines(text) + [""];
    }
  }

  lemma Regroup(before: seq<string>, header: string, a: string, b: string, c: seq<string>, d: seq<string>)
    ensures before + [header, a, b] + c + d == before + [header] + ([a, b] + (c + d))
  {}

  /** The lines of a help text: something without a header, the header, and the body. */
  lemma HelpLinesShape(registry: Registry, v: VisibilityState) returns (before: seq<string>)
    requires IsDecodable(registry)
    ensures AllLines(before) && HEADER !in before
    ensures HelpLines(registry, v) == before + [HEADER] + BodyLines(registry, v)
  {
    before := PreambleShape(registry);
    HelpLinesInOrder(registry, v);
    var prefix := PrefixOf(registry.style);
    Regroup(before, HEADER, "", EntryLine(prefix, HELP_ENTRY),
            EntryLines(prefix, VisibleIn(registry.registered, v, None)),
            AllSectionLines(prefix, VisibleGroups(registry.groups, v)));
  }

  function BodyLines(registry: Registry, v: VisibilityState): seq<string> {
    var prefix := PrefixOf(registry.style);
    ["", EntryLine(prefix, HELP_ENTRY)]
    + (EntryLines(prefix, VisibleIn(registry.registered, v, None))
       + AllSectionLines(prefix, VisibleGroups(registry.groups, v)))
  }

  lemma LinesConcat(a: seq<string>, b: seq<string>)
    requires AllLines(a) && AllLines(b)
    ensures AllLines(a + b)
  {}

  lemma {:induction false} BodyIsLines(registry: Registry, v: VisibilityState)
    requires IsDecodable(registry)
    ensures AllLines(BodyLines(registry, v))
  {
    var prefix := PrefixOf(registry.style);
    var entries, groups := VisibleIn(registry.registered, v, None), VisibleGroups(registry.groups, v);
    VisiblePlain(registry.registered, v, None);
    GroupsPlain(registry.groups, v);
    EntriesAreLines(prefix, entries);
    SectionsAreLines(prefix, groups);
    LinesConcat(EntryLines(prefix, entries), AllSectionLines(prefix, groups));
    HelpEntryIsLine(prefix);
    LinesConcat(["", EntryLine(prefix, HELP_ENTRY)], EntryLines(prefix, entries) + AllSectionLines(prefix, groups));
  }

  lemma HelpEntryIsLine(prefix: string)
    requires IsLine(prefix)
    ensures IsLine(EntryLine(prefix, HELP_ENTRY))
  {}

  lemma DecodesBody(registry: Registry, v: VisibilityState)
    requires IsDecodable(registry)
    ensures var (entries, rest) := DecodeEntries(PrefixOf(registry.style), BodyLines(registry, v)[2..]);
            [Section(None, entries)] + DecodeSections(PrefixOf(registry.style), rest) == VisibleSections(registry, v)
  {
    var prefix := PrefixOf(registry.style);
    var entries, groups := VisibleIn(registry.registered, v, None), VisibleGroups(registry.groups, v);
    VisiblePlain(registry.registered, v, None);
    GroupsPlain(registry.groups, v);
    DecodesSections(prefix, groups);
    DecodesEntries(prefix, entries, AllSectionLines(prefix, groups));
    assert BodyLines(registry, v)[2..] == EntryLines(prefix, entries) + AllSectionLines(prefix, groups);
  }

  /**
   * Decoding a help text gives back exactly what is visible: the ungrouped commands, then each
   * group with a visible command, with names and descriptions, in registration order.
   */
  lemma HelpIsDecodable(registry: Registry, v: VisibilityState, text: string)
    requires IsDecodable(registry) && text + "\n" == Terminated(HelpLines(registry, v))
    ensures DecodeHelp(registry.style, text) == VisibleSections(registry, v)
  {
    var before := HelpLinesShape(registry, v);
    BodyIsLines(registry, v);
    assert AllLines(before + [HEADER] + BodyLines(registry, v));
    SplitsTerminated(HelpLines(registry, v));
    FindsHeader(before, BodyLines(registry, v));
    DecodesBody(registry, v);
  }

  /** Two visibilities print alike exactly if they show the same. */
  lemma HelpTellsVisibilitiesApart(registry: Registry, v: VisibilityState, w: VisibilityState)
    requires IsDecodable(registry)
    ensures Terminated(HelpLines(registry, v)) == Terminated(HelpLines(registry, w))
       <==> VisibleSections(registry, v) == VisibleSections(registry, w)
  {
    if Terminated(HelpLines(registry, v)) == Terminated(HelpLines(registry, w)) {
      HelpEnds(registry, v);
      var text := TrimEnd(Terminated(HelpLines(registry, v)));
      HelpIsDecodable(registry, v, text);
      HelpIsDecodable(registry, w, text);
    }
  }
}
