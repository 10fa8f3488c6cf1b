/**
 * The help text of `src/commands.rs`: written line by line into a buffer, and decodable again.
 */
module Help {
  import opened Commands
  import opened Text
  import opened Visibility
  import opened Wrappers

  // ---- Lines ----

  /** The lines, each ended by a newline. */
  function Terminated(lines: seq<string>): string {
    if lines == [] then "" else lines[0] + "\n" + Terminated(lines[1..])
  }

  predicate IsLine(s: string) {
    '\n' !in s
  }

  function SplitLines(text: string): seq<string> {
    if text == "" then [] else
    var rest := SplitLines(text[1..]);
    if text[0] == '\n' then [""] + rest
    else if rest == [] then [[text[0]]]
    else [[text[0]] + rest[0]] + rest[1..]
  }

  lemma {:induction false} TerminatedConcat(a: seq<string>, b: seq<string>)
    ensures Terminated(a + b) == Terminated(a) + Terminated(b)
  {
    if a == [] {
      assert a + b == b;
    } else {
      assert (a + b)[1..] == a[1..] + b;
      TerminatedConcat(a[1..], b);
    }
  }

  lemma {:induction false} SplitsFirstLine(line: string, rest: string)
    requires IsLine(line)
    ensures SplitLines(line + "\n" + rest) == [line] + SplitLines(rest)
  {
    var text := line + "\n" + rest;
    if line == "" {
      assert text[1..] == rest;
    } else {
      assert text[1..] == line[1..] + "\n" + rest;
      SplitsFirstLine(line[1..], rest);
      assert [line[0]] + line[1..] == line;
    }
  }

  lemma {:induction false} SplitsTerminated(lines: seq<string>)
    requires forall i :: 0 <= i < |lines| ==> IsLine(lines[i])
    ensures SplitLines(Terminated(lines)) == lines
  {
    if lines != [] {
      SplitsTerminated(lines[1..]);
      SplitsFirstLine(lines[0], Terminated(lines[1..]));
    }
  }

  lemma {:induction false} SplitIsTerminated(text: string)
    requires text == "" || text[|text| - 1] == '\n'
    ensures Terminated(SplitLines(text)) == text
    ensures forall i :: 0 <= i < |SplitLines(text)| ==> IsLine(SplitLines(text)[i])
  {
    if text != "" {
      SplitIsTerminated(text[1..]);
      assert text == [text[0]] + text[1..];
    }
  }

  // ---- The lines of a help text ----

  const HEADER := "*Available Commands:*"

  function EntryLine(prefix: string, command: CustomCommand): string {
    "*" + prefix + command.name + "* - _" + command.description + "_"
  }

  const HELP_ENTRY := CustomCommand(HELP_COMMAND_NAME, "Show this help message")

  function EntryLines(prefix: string, commands: seq<CustomCommand>): seq<string> {
    if commands == [] then [] else [EntryLine(prefix, commands[0])] + EntryLines(prefix, commands[1..])
  }

  /** A section of the help text; the ungrouped commands have no title. */
  datatype Section = Section(title: Option<string>, entries: seq<CustomCommand>)

  function SectionLines(prefix: string, section: Section): seq<string> {
    (if section.title.Some? then ["", section.title.value + ":", ""] else []) + EntryLines(prefix, section.entries)
  }

  /** The groups with something to show. */
  function VisibleGroups(groups: seq<CommandGroup>, v: VisibilityState): seq<Section> {
    if groups == [] then [] else
    var entries := VisibleIn(groups[0].commands, v, Some(groups[0].id));
    var rest := VisibleGroups(groups[1..], v);
    if entries == [] then rest else [Section(Some(groups[0].title), entries)] + rest
  }

  /** What a help text shows, in registration order. */
  function VisibleSections(registry: Registry, v: VisibilityState): seq<Section> {
    [Section(None, VisibleIn(registry.registered, v, None))] + VisibleGroups(registry.groups, v)
  }

  function AllSectionLines(prefix: string, sections: seq<Section>): seq<string> {
    if sections == [] then [] else SectionLines(prefix, sections[0]) + AllSectionLines(prefix, sections[1..])
  }

  function PreambleLines(registry: Registry): seq<string> {
    (if registry.description.Some? then SplitLines(registry.description.value + "\n") + [""] else [])
    + [HEADER, "", EntryLine(PrefixOf(registry.style), HELP_ENTRY)]
  }

  function HelpLines(registry: Registry, v: VisibilityState): seq<string> {
    PreambleLines(registry) + AllSectionLines(PrefixOf(registry.style), VisibleSections(registry, v))
  }

  // ---- Writing ----

  function Written(text: string, line: string): string {
    text + line + "\n"
  }

  lemma WritesLine(lines: seq<string>, line: string)
    ensures Written(Terminated(lines), line) == Terminated(lines + [line])
  {
    TerminatedConcat(lines, [line]);
    assert Terminated([line]) == line + "\n" + "";
  }

  lemma {:induction false} EntryLinesConcat(prefix: string, a: seq<CustomCommand>, b: seq<CustomCommand>)
    ensures EntryLines(prefix, a + b) == EntryLines(prefix, a) + EntryLines(prefix, b)
  {
    if a == [] {
      assert a + b == b;
    } else {
      assert (a + b)[1..] == a[1..] + b;
      EntryLinesConcat(prefix, a[1..], b);
    }
  }

  /** The loop over the ungrouped commands: those that are visible are written. */
  method WriteVisible(before: string, prefix: string, commands: seq<CustomCommand>, visibility: HelpVisibility,
                      ghost lines: seq<string>)
    returns (text: string)
    requires before == Terminated(lines)
    ensures text == Terminated(lines + EntryLines(prefix, VisibleIn(commands, visibility.State(), None)))
  {
    ghost var v := visibility.State();
    text := before;
    assert lines + [] == lines;
    for i := 0 to |commands|
      invariant text == Terminated(lines + EntryLines(prefix, VisibleIn(commands[..i], v, None)))
    {
      ghost var shown := VisibleIn(commands[..i], v, None);
      VisibleInSnoc(commands, i, v, None);
      if visibility.IsCommandVisible(commands[i].name, None) {
        text := Written(text, EntryLine(prefix, commands[i]));
        WritesEntry(lines, prefix, shown, commands[i]);
      }
    }
    assert commands[..|commands|] == commands;
  }

  /** The loop over the visible commands of a group. */
  method WriteEntries(before: string, prefix: string, commands: seq<CustomCommand>, ghost lines: seq<string>)
    returns (text: string)
    requires before == Terminated(lines)
    ensures text == Terminated(lines + EntryLines(prefix, commands))
  {
    text := before;
    assert lines + [] == lines;
    for i := 0 to |commands|
      invariant text == Terminated(lines + EntryLines(prefix, commands[..i]))
    {
      text := Written(text, EntryLine(prefix, commands[i]));
      WritesEntry(lines, prefix, commands[..i], commands[i]);
      assert commands[..i + 1] == commands[..i] + [commands[i]];
    }
    assert commands[..|commands|] == commands;
  }

  lemma WritesEntry(lines: seq<string>, prefix: string, shown: seq<CustomCommand>, command: CustomCommand)
    ensures Written(Terminated(lines + EntryLines(prefix, shown)), EntryLine(prefix, command))
         == Terminated(lines + EntryLines(prefix, shown + [command]))
  {
    var line := EntryLine(prefix, command);
    WritesLine(lines + EntryLines(prefix, shown), line);
    EntryLinesConcat(prefix, shown, [command]);
    assert EntryLines(prefix, [command]) == [line];
    assert lines + EntryLines(prefix, shown) + [line] == lines + EntryLines(prefix, shown + [command]);
  }

  lemma {:induction false} VisibleGroupsConcat(a: seq<CommandGroup>, b: seq<CommandGroup>, v: VisibilityState)
    ensures VisibleGroups(a + b, v) == VisibleGroups(a, v) + VisibleGroups(b, v)
  {
    if a == [] {
      assert a + b == b;
    } else {
      assert (a + b)[1..] == a[1..] + b;
      VisibleGroupsConcat(a[1..], b, v);
    }
  }

  lemma VisibleGroupsSnoc(groups: seq<CommandGroup>, i: nat, v: VisibilityState)
    requires i < |groups|
    ensures var shown, entries := VisibleGroups(groups[..i], v), VisibleIn(groups[i].commands, v, Some(groups[i].id));
            VisibleGroups(groups[..i + 1], v)
              == if entries == [] then shown else shown + [Section(Some(groups[i].title), entries)]
  {
    assert groups[..i + 1] == groups[..i] + [groups[i]];
    VisibleGroupsConcat(groups[..i], [groups[i]], v);
  }

  lemma {:induction false} AllSectionLinesConcat(prefix: string, a: seq<Section>, b: seq<Section>)
    ensures AllSectionLines(prefix, a + b) == AllSectionLines(prefix, a) + AllSectionLines(prefix, b)
  {
    if a == [] {
      assert a + b == b;
    } else {
      assert (a + b)[1..] == a[1..] + b;
      AllSectionLinesConcat(prefix, a[1..], b);
    }
  }

  /** The loop over the groups: a group without visible commands gets no header. */
  method WriteGroups(before: string, prefix: string, groups: seq<CommandGroup>, visibility: HelpVisibility,
                     ghost lines: seq<string>)
    returns (text: string)
    requires before == Terminated(lines)
    ensures text == Terminated(lines + AllSectionLines(prefix, VisibleGroups(groups, visibility.State())))
  {
    ghost var v := visibility.State();
    text := before;
    assert lines + [] == lines;
    for i := 0 to |groups|
      invariant text == Terminated(lines + AllSectionLines(prefix, VisibleGroups(groups[..i], v)))
    {
      var visible := VisibleIn(groups[i].commands, visibility.State(), Some(groups[i].id));
      ghost var shown := VisibleGroups(groups[..i], v);
      VisibleGroupsSnoc(groups, i, v);
      if |visible| > 0 {
        ghost var done := lines + AllSectionLines(prefix, shown);
        text := Written(Written(Written(text, ""), groups[i].title + ":"), "");
        WritesHeader(done, groups[i].title);
        text := WriteEntries(text, prefix, visible, done + ["", groups[i].title + ":", ""]);
        WritesSection(prefix, lines, shown, Section(Some(groups[i].title), visible));
      }
    }
    assert groups[..|groups|] == groups;
  }

  lemma WritesHeader(lines: seq<string>, title: string)
    ensures Written(Written(Written(Terminated(lines), ""), title + ":"), "")
         == Terminated(lines + ["", title + ":", ""])
  {
    WritesLine(lines, "");
    WritesLine(lines + [""], title + ":");
    WritesLine(lines + [""] + [title + ":"], "");
    assert lines + [""] + [title + ":"] + [""] == lines + ["", title + ":", ""];
  }

  lemma OneSection(prefix: string, section: Section)
    ensures AllSectionLines(prefix, [section]) == SectionLines(prefix, section)
  {}

  lemma WritesSection(prefix: string, lines: seq<string>, shown: seq<Section>, section: Section)
    requires section.title.Some?
    ensures lines + AllSectionLines(prefix, shown) + ["", section.title.value + ":", ""]
            + EntryLines(prefix, section.entries)
         == lines + AllSectionLines(prefix, shown + [section])
  {
    AllSectionLinesConcat(prefix, shown, [section]);
    OneSection(prefix, section);
  }

  /** The description, which may have several lines, and an empty line. */
  method WriteDescription(description: string) returns (text: string)
    ensures text == Terminated(SplitLines(description + "\n") + [""])
  {
    text := description + "\n";
    SplitIsTerminated(text);
    WritesLine(SplitLines(text), "");
    text := Written(text, "");
  }

  method WritePreamble(registry: Registry) returns (text: string)
    ensures text == Terminated(PreambleLines(registry))
  {
    text := "";
    ghost var lines := [];
    if registry.description.Some? {
      text := WriteDescription(registry.description.value);
      lines := SplitLines(registry.description.value + "\n") + [""];
    }
    var entry := EntryLine(PrefixOf(registry.style), HELP_ENTRY);
    WritesLine(lines, HEADER);
    WritesLine(lines + [HEADER], "");
    WritesLine(lines + [HEADER] + [""], entry);
    assert lines + [HEADER] + [""] + [entry] == PreambleLines(registry);
    text := Written(Written(Written(text, HEADER), ""), entry);
  }

  predicate EndsInUnderscore(line: string) {
    line != "" && line[|line| - 1] == '_'
  }

  lemma {:induction false} EntriesEnd(prefix: string, commands: seq<CustomCommand>)
    requires commands != []
    ensures var lines := EntryLines(prefix, commands);
            lines != [] && EndsInUnderscore(lines[|lines| - 1])
  {
    if |commands| > 1 {
      EntriesEnd(prefix, commands[1..]);
    }
  }

  /** Every line that sections can end with ends in an underscore. */
  lemma {:induction false} SectionsEnd(prefix: string, sections: seq<Section>)
    requires forall i :: 0 <= i < |sections| && sections[i].title.Some? ==> sections[i].entries != []
    ensures var lines := AllSectionLines(prefix, sections);
            lines != [] ==> EndsInUnderscore(lines[|lines| - 1])
    decreases |sections|
  {
    if sections != [] {
      SectionsEnd(prefix, sections[1..]);
      if sections[0].entries != [] {
        EntriesEnd(prefix, sections[0].entries);
      }
    }
  }

  lemma {:induction false} ShownGroupsHaveEntries(groups: seq<CommandGroup>, v: VisibilityState)
    ensures forall i :: 0 <= i < |VisibleGroups(groups, v)| ==>
              VisibleGroups(groups, v)[i].title.Some? && VisibleGroups(groups, v)[i].entries != []
  {
    if groups != [] {
      ShownGroupsHaveEntries(groups[1..], v);
    }
  }

  lemma TrimEndKeeps(text: string)
    requires EndsInUnderscore(text)
    ensures TrimEnd(text + "\n") == text
  {
    TrimEndDrops(text, "\n");
  }

  /** Behind a last line that ends in an underscore, trimming takes away exactly the last newline. */
  lemma TrimsOneNewline(lines: seq<string>)
    requires lines != [] && EndsInUnderscore(lines[|lines| - 1])
    ensures TrimEnd(Terminated(lines)) + "\n" == Terminated(lines)
  {
    var init, last := lines[..|lines| - 1], lines[|lines| - 1];
    var text := Terminated(init) + last;
    assert Terminated(lines) == text + "\n" by {
      assert init + [last] == lines;
      WritesLine(init, last);
    }
    assert text[|text| - 1] == last[|last| - 1];
    TrimEndKeeps(text);
  }

  lemma HelpLinesInOrder(registry: Registry, v: VisibilityState)
    ensures var prefix := PrefixOf(registry.style);
            HelpLines(registry, v) ==
              PreambleLines(registry) + EntryLines(prefix, VisibleIn(registry.registered, v, None))
              + AllSectionLines(prefix, VisibleGroups(registry.groups, v))
  {
    var prefix, sections := PrefixOf(registry.style), VisibleSections(registry, v);
    assert sections[1..] == VisibleGroups(registry.groups, v);
    assert SectionLines(prefix, sections[0]) == EntryLines(prefix, sections[0].entries);
  }

  lemma HelpEnds(registry: Registry, v: VisibilityState)
    ensures TrimEnd(Terminated(HelpLines(registry, v))) + "\n" == Terminated(HelpLines(registry, v))
  {
    ShownGroupsHaveEntries(registry.groups, v);
    SectionsEnd(PrefixOf(registry.style), VisibleSections(registry, v));
    TrimsOneNewline(HelpLines(registry, v));
  }

  function HelpTextFor(registry: Registry, v: VisibilityState): string {
    TrimEnd(Terminated(HelpLines(registry, v)))
  }

  /**
   * The help text is its lines, with the last newline trimmed off: the description, the header,
   * the `help` command, the visible ungrouped commands, and each group with a visible command.
   */
  method HelpText(registry: Registry, visibility: HelpVisibility) returns (text: string)
    ensures text + "\n" == Terminated(HelpLines(registry, visibility.State()))
    ensures text == HelpTextFor(registry, visibility.State())
  {
    ghost var v := visibility.State();
    var prefix := PrefixOf(registry.style);
    text := WritePreamble(registry);
    ghost var lines := PreambleLines(registry);
    text := WriteVisible(text, prefix, registry.registered, visibility, lines);
    ghost var ungrouped := EntryLines(prefix, VisibleIn(registry.registered, v, None));
    text := WriteGroups(text, prefix, registry.groups, visibility, lines + ungrouped);
    HelpLinesInOrder(registry, v);

    HelpEnds(registry, v);
    text := TrimEnd(text);
  }

  // ---- The text, letter by letter ----

  /** Every visible command on a line of its own. */
  function Listed(prefix: string, commands: seq<CustomCommand>, v: VisibilityState, group: Option<string>): string {
    if commands == [] then "" else
    (if IsVisible(v, commands[0].name, group)
     then "\n*" + prefix + commands[0].name + "* - _" + commands[0].description + "_" else "")
    + Listed(prefix, commands[1..], v, group)
  }

  /** Every group with a visible command, behind an empty line, its title and another empty line. */
  function ListedGroups(prefix: string, groups: seq<CommandGroup>, v: VisibilityState): string {
    if groups == [] then "" else
    var listed := Listed(prefix, groups[0].commands, v, Some(groups[0].id));
    (if listed == "" then "" else "\n\n" + groups[0].title + ":\n" + listed)
    + ListedGroups(prefix, groups[1..], v)
  }

  lemma EntrySpelledOut(prefix: string, command: CustomCommand)
    ensures "\n" + EntryLine(prefix, command)
         == "\n*" + prefix + command.name + "* - _" + command.description + "_"
  {
    assert "\n" + "*" == "\n*";
    Associates("\n", "*", prefix, command.name, "* - _", command.description, "_");
  }

  lemma Associates(a: string, b: string, c: string, d: string, e: string, f: string, g: string)
    ensures a + (b + c + d + e + f + g) == (a + b) + c + d + e + f + g
  {}

  lemma {:induction false} ListedLines(prefix: string, commands: seq<CustomCommand>, v: VisibilityState,
                                       group: Option<string>)
    ensures var entries := VisibleIn(commands, v, group);
            && "\n" + Terminated(EntryLines(prefix, entries)) == Listed(prefix, commands, v, group) + "\n"
            && (entries == [] <==> Listed(prefix, commands, v, group) == "")
  {
    if commands != [] {
      ListedLines(prefix, commands[1..], v, group);
      if IsVisible(v, commands[0].name, group) {
        var rest := VisibleIn(commands[1..], v, group);
        EntrySpelledOut(prefix, commands[0]);
        FirstEntry(prefix, commands[0], rest);
        LineFirst(EntryLine(prefix, commands[0]), EntryLines(prefix, rest), Listed(prefix, commands[1..], v, group));
      }
    }
  }

  lemma FirstEntry(prefix: string, command: CustomCommand, rest: seq<CustomCommand>)
    ensures EntryLines(prefix, [command] + rest) == [EntryLine(prefix, command)] + EntryLines(prefix, rest)
  {
    assert ([command] + rest)[1..] == rest;
  }

  /** A newline in front of every line, instead of behind it. */
  lemma LineFirst(line: string, lines: seq<string>, listed: string)
    requires "\n" + Terminated(lines) == listed + "\n"
    ensures "\n" + Terminated([line] + lines) == "\n" + line + listed + "\n"
  {
    assert ([line] + lines)[1..] == lines;
    assert "\n" + (line + "\n" + Terminated(lines)) == "\n" + line + ("\n" + Terminated(lines));
  }

  lemma {:induction false} ListedGroupLines(prefix: string, groups: seq<CommandGroup>, v: VisibilityState)
    ensures "\n" + Terminated(AllSectionLines(prefix, VisibleGroups(groups, v)))
         == ListedGroups(prefix, groups, v) + "\n"
  {
    if groups != [] {
      var id, title := Some(groups[0].id), groups[0].title;
      var entries, rest := VisibleIn(groups[0].commands, v, id), VisibleGroups(groups[1..], v);
      ListedGroupLines(prefix, groups[1..], v);
      ListedLines(prefix, groups[0].commands, v, id);
      if entries != [] {
        var section := Section(Some(title), entries);
        assert ([section] + rest)[1..] == rest;
        assert AllSectionLines(prefix, [section] + rest)
            == ["", title + ":", ""] + EntryLines(prefix, entries) + AllSectionLines(prefix, rest);
        GroupFirst(title, EntryLines(prefix, entries), Listed(prefix, groups[0].commands, v, id),
                   AllSectionLines(prefix, rest), ListedGroups(prefix, groups[1..], v));
      }
    }
  }

  lemma ThreeLines(a: string, b: string, c: string)
    ensures Terminated([a, b, c]) == a + "\n" + b + "\n" + c + "\n"
  {
    WritesLine([], a);
    WritesLine([] + [a], b);
    WritesLine([] + [a] + [b], c);
    assert [] + [a] + [b] + [c] == [a, b, c];
    assert "" + a == a;
  }

  lemma GroupFirst(title: string, entries: seq<string>, listed: string, lines: seq<string>, others: string)
    requires "\n" + Terminated(entries) == listed + "\n" && "\n" + Terminated(lines) == others + "\n"
    ensures "\n" + Terminated(["", title + ":", ""] + entries + lines)
         == "\n\n" + title + ":\n" + listed + others + "\n"
  {
    var head := ["", title + ":", ""];
    TerminatedConcat(head + entries, lines);
    TerminatedConcat(head, entries);
    ThreeLines("", title + ":", "");
    GroupText(title, Terminated(entries), listed, Terminated(lines), others);
  }

  lemma GroupText(title: string, entries: string, listed: string, lines: string, others: string)
    requires "\n" + entries == listed + "\n" && "\n" + lines == others + "\n"
    ensures "\n" + (("" + "\n" + (title + ":") + "\n" + "" + "\n") + entries + lines)
         == "\n\n" + title + ":\n" + listed + others + "\n"
  {
    var start := "\n\n" + title + ":\n";
    assert "\n" + ("" + "\n" + (title + ":") + "\n" + "") == start;
    assert "\n" + (("" + "\n" + (title + ":") + "\n" + "" + "\n") + entries + lines)
        == start + ("\n" + entries) + lines;
    assert start + (listed + "\n") + lines == start + listed + ("\n" + lines);
    assert start + listed + (others + "\n") == start + listed + others + "\n";
  }

  lemma HeadReads(prefix: string)
    ensures Terminated([HEADER, "", EntryLine(prefix, HELP_ENTRY)])
         == "*Available Commands:*" + "\n\n" + ("*" + prefix + "help" + "* - _" + "Show this help message" + "_") + "\n"
  {
    ThreeLines(HEADER, "", EntryLine(prefix, HELP_ENTRY));
    assert "\n" + "" + "\n" == "\n\n";
    assert HEADER + "\n" + "" + "\n" == HEADER + ("\n" + "" + "\n");
  }

  /** The description, if there is one, and an empty line. */
  function Introduction(registry: Registry): string {
    match registry.description
    case Some(text) => text + "\n\n"
    case None => ""
  }

  lemma PreambleReads(registry: Registry)
    ensures Terminated(PreambleLines(registry))
         == Introduction(registry) + Terminated([HEADER, "", EntryLine(PrefixOf(registry.style), HELP_ENTRY)])
  {
    var head := [HEADER, "", EntryLine(PrefixOf(registry.style), HELP_ENTRY)];
    if registry.description.Some? {
      var text := registry.description.value + "\n";
      SplitIsTerminated(text);
      WritesLine(SplitLines(text), "");
      TerminatedConcat(SplitLines(text) + [""], head);
      assert text + "" + "\n" == Introduction(registry);
    } else {
      assert [] + head == head && "" + Terminated(head) == Terminated(head);
    }
  }

  /**
   * The help text is: the description and an empty line, if there is a description; the header and
   * the `help` command; and the visible commands, group by group, in registration order.
   */
  lemma HelpReads(registry: Registry, v: VisibilityState)
    ensures var prefix := if registry.style.Slash? then "/" else "";
            HelpTextFor(registry, v) ==
              (match registry.description case Some(text) => text + "\n\n" case None => "")
              + ("*Available Commands:*" + "\n\n" + ("*" + prefix + "help" + "* - _" + "Show this help message" + "_")
                 + Listed(prefix, registry.registered, v, None) + ListedGroups(prefix, registry.groups, v))
  {
    var prefix := PrefixOf(registry.style);
    var entries := EntryLines(prefix, VisibleIn(registry.registered, v, None));
    var groups := AllSectionLines(prefix, VisibleGroups(registry.groups, v));
    HelpLinesInOrder(registry, v);
    HelpEnds(registry, v);
    TerminatedConcat(PreambleLines(registry) + entries, groups);
    TerminatedConcat(PreambleLines(registry), entries);
    PreambleReads(registry);
    HeadReads(prefix);
    ListedLines(prefix, registry.registered, v, None);
    ListedGroupLines(prefix, registry.groups, v);
    Assembled(Introduction(registry),
              "*Available Commands:*" + "\n\n" + ("*" + prefix + "help" + "* - _" + "Show this help message" + "_"),
              Terminated(entries), Listed(prefix, registry.registered, v, None),
              Terminated(groups), ListedGroups(prefix, registry.groups, v), HelpTextFor(registry, v));
  }

  lemma Assembled(description: string, head: string, entries: string, listed: string, groups: string, others: string,
                  text: string)
    requires "\n" + entries == listed + "\n" && "\n" + groups == others + "\n"
    requires text + "\n" == description + (head + "\n") + entries + groups
    ensures text == description + (head + listed + others)
  {
    assert description + (head + "\n") + entries + groups == description + head + ("\n" + entries) + groups;
    assert description + head + (listed + "\n") + groups == description + head + listed + ("\n" + groups);
    assert description + head + listed + (others + "\n") == description + (head + listed + others) + "\n";
    assert (text + "\n")[..|text|] == text;
  }

  // ---- Preludes ----

  function HelpTextWithPrelude(prelude: Option<string>, help: string): (r: string)
    ensures prelude.None? ==> r == help
    ensures prelude.Some? ==> |r| == |prelude.value| + 7 + |help| && prelude.value <= r
                              && r[|prelude.value|..] == "\n\n---\n\n" + help
  {
    match prelude
    case Some(text) => text + "\n\n---\n\n" + help
    case None => help
  }
}
