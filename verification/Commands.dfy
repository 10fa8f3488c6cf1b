/**
 * The command language of `src/commands.rs`: registration, validation, parsing and formatting.
 */
module Commands {
  import opened Text
  import opened Wrappers

  const HELP_COMMAND_NAME := "help"

  datatype CommandStyle = Slash | Word

  datatype ParsedCommand =
    | Help
    | Registered(name: string, args: string)
    | Unknown(name: string, args: string)
    | NoCommand(text: string)

  datatype CustomCommand = CustomCommand(name: string, description: string)

  datatype CommandGroup = CommandGroup(id: string, title: string, commands: seq<CustomCommand>)

  /** What the builders of `Commands` collect, with the bot's description. */
  datatype Registry = Registry(
    description: Option<string>,
    style: CommandStyle,
    registered: seq<CustomCommand>,
    groups: seq<CommandGroup>,
    handleUnknown: bool)

  // ---- Registration ----

  ghost predicate NameIn(commands: seq<CustomCommand>, name: string) {
    exists i :: 0 <= i < |commands| && commands[i].name == name
  }

  /** The name is registered in some section. */
  ghost predicate IsRegistered(registry: Registry, name: string) {
    || NameIn(registry.registered, name)
    || exists g :: 0 <= g < |registry.groups| && NameIn(registry.groups[g].commands, name)
  }

  function HasName(commands: seq<CustomCommand>, name: string): (r: bool)
    ensures r <==> NameIn(commands, name)
  {
    if commands == [] then false else
    assert forall i :: 0 < i < |commands| ==> commands[i] == commands[1..][i - 1];
    commands[0].name == name || HasName(commands[1..], name)
  }

  function GroupHasName(groups: seq<CommandGroup>, name: string): (r: bool)
    ensures r <==> exists g :: 0 <= g < |groups| && NameIn(groups[g].commands, name)
  {
    if groups == [] then false else
    assert forall i :: 0 < i < |groups| ==> groups[i] == groups[1..][i - 1];
    HasName(groups[0].commands, name) || GroupHasName(groups[1..], name)
  }

  /** `is_registered` */
  function Knows(registry: Registry, name: string): (r: bool)
    ensures r <==> IsRegistered(registry, name)
  {
    HasName(registry.registered, name) || GroupHasName(registry.groups, name)
  }

  // ---- Validation ----

  datatype InitError =
    | ReservedName(section: Option<string>)
    | DuplicateCommand(name: string, section: Option<string>)
    | DuplicateGroup(id: string)

  ghost predicate DistinctNames(commands: seq<CustomCommand>) {
    forall i, j :: 0 <= i < j < |commands| ==> commands[i].name != commands[j].name
  }

  ghost predicate SectionOk(commands: seq<CustomCommand>) {
    !NameIn(commands, HELP_COMMAND_NAME) && DistinctNames(commands)
  }

  ghost predicate Wellformed(registry: Registry) {
    && SectionOk(registry.registered)
    && (forall g :: 0 <= g < |registry.groups| ==> SectionOk(registry.groups[g].commands))
    && (forall g, h :: 0 <= g < h < |registry.groups| ==> registry.groups[g].id != registry.groups[h].id)
  }

  /** The first command at fault decides the error: `help`, or a name seen before in the section. */
  ghost predicate SectionFault(commands: seq<CustomCommand>, section: Option<string>, error: InitError) {
    exists i :: 0 <= i < |commands| && SectionOk(commands[..i]) &&
      if commands[i].name == HELP_COMMAND_NAME then error == ReservedName(section)
      else NameIn(commands[..i], commands[i].name) && error == DuplicateCommand(commands[i].name, section)
  }

  /** The sections are checked in order, and a group's identifier before its commands. */
  ghost predicate Fault(registry: Registry, error: InitError) {
    || SectionFault(registry.registered, None, error)
    || exists g :: 0 <= g < |registry.groups| && Wellformed(registry.(groups := registry.groups[..g])) &&
         if exists h :: 0 <= h < g && registry.groups[h].id == registry.groups[g].id then
           error == DuplicateGroup(registry.groups[g].id)
         else
           SectionFault(registry.groups[g].commands, Some(registry.groups[g].id), error)
  }

  method CheckSection(commands: seq<CustomCommand>, section: Option<string>) returns (r: Result<(), InitError>)
    ensures r.Ok? <==> SectionOk(commands)
    ensures r.Err? ==> SectionFault(commands, section, r.error)
  {
    var seen := {};
    for i := 0 to |commands|
      invariant forall name :: name in seen <==> NameIn(commands[..i], name)
      invariant SectionOk(commands[..i])
    {
      var name := commands[i].name;
      assert commands[..i][..i] == commands[..i];
      if name == HELP_COMMAND_NAME {
        return Err(ReservedName(section));
      }
      if name in seen {
        assert exists j :: 0 <= j < i && commands[j].name == name;
        return Err(DuplicateCommand(name, section));
      }
      seen := seen + {name};
      assert forall other :: NameIn(commands[..i + 1], other) <==> NameIn(commands[..i], other) || other == name by {
        ExtendedNames(commands, i);
      }
    }
    assert commands[..|commands|] == commands;
    r := Ok(());
  }

  lemma ExtendedNames(commands: seq<CustomCommand>, i: nat)
    requires i < |commands|
    ensures forall other :: NameIn(commands[..i + 1], other)
                       <==> NameIn(commands[..i], other) || other == commands[i].name
  {
    forall other
      ensures NameIn(commands[..i + 1], other) <==> NameIn(commands[..i], other) || other == commands[i].name
    {
      if NameIn(commands[..i], other) {
        var j :| 0 <= j < i && commands[..i][j].name == other;
        assert commands[..i + 1][j].name == other;
      }
      if other == commands[i].name {
        assert commands[..i + 1][i].name == other;
      }
    }
  }

  method Validate(registry: Registry) returns (r: Result<(), InitError>)
    ensures r.Ok? <==> Wellformed(registry)
    ensures r.Err? ==> Fault(registry, r.error)
  {
    r := CheckSection(registry.registered, None);
    if r.Err? {
      return;
    }
    var groups, ids := registry.groups, {};
    for g := 0 to |groups|
      invariant forall id :: id in ids <==> exists h :: 0 <= h < g && groups[h].id == id
      invariant Wellformed(registry.(groups := groups[..g]))
    {
      if groups[g].id in ids {
        return Err(DuplicateGroup(groups[g].id));
      }
      ids := ids + {groups[g].id};
      r := CheckSection(groups[g].commands, Some(groups[g].id));
      if r.Err? {
        return;
      }
    }
    assert groups[..|groups|] == groups;
    r := Ok(());
  }

  // ---- Parsing ----

  function PrefixOf(style: CommandStyle): string {
    match style
    case Slash => "/"
    case Word => ""
  }

  function FormatCommand(style: CommandStyle, name: string): string {
    match style
    case Slash => "/" + name
    case Word => name
  }

  /** The arguments after `name`; empty if `text` does not start with `name`. */
  function ArgsAfter(text: string, name: string): string {
    match StripPrefix(text, name)
    case Some(rest) => Trim(rest)
    case None => ""
  }

  function Parse(registry: Registry, text: string): ParsedCommand {
    var trimmed := Trim(text);
    match registry.style
    case Slash =>
      (match StripPrefix(trimmed, "/")
       case None => NoCommand(trimmed)
       case Some(rest) =>
         match FirstWord(rest)
         case None => NoCommand(trimmed)
         case Some(name) =>
           var args := ArgsAfter(rest, name);
           if name == HELP_COMMAND_NAME then Help
           else if Knows(registry, name) then Registered(name, args)
           else Unknown(name, args))
    case Word =>
      match FirstWord(trimmed)
      case None => NoCommand(trimmed)
      case Some(name) =>
        var args := ArgsAfter(trimmed, name);
        if name == HELP_COMMAND_NAME then Help
        else if Knows(registry, name) then Registered(name, args)
        // The word style cannot tell an unknown command from plain text.
        else NoCommand(trimmed)
  }
}
