/** `HelpVisibility` of `src/commands.rs`: which commands the help text lists. */
module Visibility {
  import opened Commands
  import opened Wrappers

  datatype VisibilityState = VisibilityState(base: bool, groups: map<string, bool>, commands: map<string, bool>)

  /** A command-level override beats a group-level one, which beats the base. */
  predicate IsVisible(v: VisibilityState, command: string, group: Option<string>) {
    if command in v.commands then v.commands[command]
    else if group.Some? && group.value in v.groups then v.groups[group.value]
    else v.base
  }

  /** A builder call: show or hide a group or a command. */
  datatype BuilderCall = OnGroup(id: string, show: bool) | OnCommand(id: string, show: bool)

  function Apply(v: VisibilityState, call: BuilderCall): VisibilityState {
    match call
    case OnGroup(id, show) => v.(groups := v.groups[id := show])
    case OnCommand(id, show) => v.(commands := v.commands[id := show])
  }

  class HelpVisibility {
    var base: bool
    var groups: map<string, bool>
    var commands: map<string, bool>

    function State(): VisibilityState
      reads this
    {
      VisibilityState(base, groups, commands)
    }

    constructor All()
      ensures State() == VisibilityState(true, map[], map[])
    {
      base, groups, commands := true, map[], map[];
    }

    constructor Nothing()
      ensures State() == VisibilityState(false, map[], map[])
    {
      base, groups, commands := false, map[], map[];
    }

    /** A visibility as some sequence of builder calls has left it. */
    constructor Built(v: VisibilityState)
      ensures State() == v
    {
      base, groups, commands := v.base, v.groups, v.commands;
    }

    method ShowGroup(id: string)
      modifies this
      ensures State() == Apply(old(State()), OnGroup(id, true))
    {
      groups := groups[id := true];
    }

    method HideGroup(id: string)
      modifies this
      ensures State() == Apply(old(State()), OnGroup(id, false))
    {
      groups := groups[id := false];
    }

    method ShowCommand(id: string)
      modifies this
      ensures State() == Apply(old(State()), OnCommand(id, true))
    {
      commands := commands[id := true];
    }

    method HideCommand(id: string)
      modifies this
      ensures State() == Apply(old(State()), OnCommand(id, false))
    {
      commands := commands[id := false];
    }

    predicate IsCommandVisible(command: string, group: Option<string>)
      reads this
    {
      IsVisible(State(), command, group)
    }
  }

  // ---- Resolution is a backwards scan of the calls ----

  type Log = seq<BuilderCall>

  function Replay(base: bool, log: Log): VisibilityState {
    if log == [] then VisibilityState(base, map[], map[]) else Apply(Replay(base, log[..|log| - 1]), log[|log| - 1])
  }

  predicate Concerns(call: BuilderCall, onCommand: bool, id: string) {
    call.OnCommand? == onCommand && call.id == id
  }

  /** Call `i` is the last one on this level for this identifier. */
  ghost predicate IsLastCall(log: Log, i: int, onCommand: bool, id: string) {
    && 0 <= i < |log| && Concerns(log[i], onCommand, id)
    && forall j :: i < j < |log| ==> !Concerns(log[j], onCommand, id)
  }

  /** What the last call on this level for this identifier says, scanning backwards. */
  function LastCall(log: Log, onCommand: bool, id: string): (r: Option<bool>)
    ensures r.Some? <==> exists i :: IsLastCall(log, i, onCommand, id)
    ensures forall i :: IsLastCall(log, i, onCommand, id) ==> r == Some(log[i].show)
    ensures r.None? <==> forall j :: 0 <= j < |log| ==> !Concerns(log[j], onCommand, id)
  {
    if log == [] then None else
    var n := |log| - 1;
    if Concerns(log[n], onCommand, id) then
      assert IsLastCall(log, n, onCommand, id);
      Some(log[n].show)
    else
      var earlier := log[..n];
      assert forall i :: IsLastCall(earlier, i, onCommand, id) ==> IsLastCall(log, i, onCommand, id);
      assert forall i :: IsLastCall(log, i, onCommand, id) ==> IsLastCall(earlier, i, onCommand, id);
      LastCall(earlier, onCommand, id)
  }

  lemma {:induction false} ReplayKeepsLast(base: bool, log: Log, id: string)
    ensures var v := Replay(base, log);
            && v.base == base
            && LastCall(log, true, id) == (if id in v.commands then Some(v.commands[id]) else None)
            && LastCall(log, false, id) == (if id in v.groups then Some(v.groups[id]) else None)
    decreases |log|
  {
    if log != [] {
      ReplayKeepsLast(base, log[..|log| - 1], id);
    }
  }

  /** The last command-level call for the command decides, else the last one for its group, else the base. */
  lemma ResolvedByLastCall(base: bool, log: Log, command: string, group: Option<string>)
    ensures IsVisible(Replay(base, log), command, group)
         == match LastCall(log, true, command)
            case Some(show) => show
            case None =>
              match (if group.Some? then LastCall(log, false, group.value) else None)
              case Some(show) => show
              case None => base
  {
    ReplayKeepsLast(base, log, command);
    if group.Some? {
      ReplayKeepsLast(base, log, group.value);
    }
  }

  // ---- The effect of a builder call on a section ----

  /** The commands of a section that are visible, in registration order. */
  function VisibleIn(commands: seq<CustomCommand>, v: VisibilityState, group: Option<string>): seq<CustomCommand> {
    if commands == [] then [] else
    var rest := VisibleIn(commands[1..], v, group);
    if IsVisible(v, commands[0].name, group) then [commands[0]] + rest else rest
  }

  lemma {:induction false} VisibleInConcat(a: seq<CustomCommand>, b: seq<CustomCommand>, v: VisibilityState,
                                           group: Option<string>)
    ensures VisibleIn(a + b, v, group) == VisibleIn(a, v, group) + VisibleIn(b, v, group)
  {
    if a == [] {
      assert a + b == b;
    } else {
      assert (a + b)[1..] == a[1..] + b;
      VisibleInConcat(a[1..], b, v, group);
    }
  }

  lemma VisibleInSnoc(commands: seq<CustomCommand>, i: nat, v: VisibilityState, group: Option<string>)
    requires i < |commands|
    ensures var shown := VisibleIn(commands[..i], v, group);
            VisibleIn(commands[..i + 1], v, group)
              == if IsVisible(v, commands[i].name, group) then shown + [commands[i]] else shown
  {
    assert commands[..i + 1] == commands[..i] + [commands[i]];
    VisibleInConcat(commands[..i], [commands[i]], v, group);
  }

  lemma {:induction false} FilteredTwice(commands: seq<CustomCommand>, a: VisibilityState, b: VisibilityState,
                                         group: Option<string>)
    requires forall i :: 0 <= i < |commands| ==>
               IsVisible(a, commands[i].name, group) ==> IsVisible(b, commands[i].name, group)
    ensures VisibleIn(VisibleIn(commands, b, group), a, group) == VisibleIn(commands, a, group)
  {
    if commands != [] {
      FilteredTwice(commands[1..], a, b, group);
      var rest := VisibleIn(commands[1..], b, group);
      assert IsVisible(b, commands[0].name, group) ==> ([commands[0]] + rest)[1..] == rest;
    }
  }

  lemma {:induction false} SameVisible(commands: seq<CustomCommand>, a: VisibilityState, b: VisibilityState,
                                       group: Option<string>)
    requires forall i :: 0 <= i < |commands| ==>
               IsVisible(a, commands[i].name, group) == IsVisible(b, commands[i].name, group)
    ensures VisibleIn(commands, a, group) == VisibleIn(commands, b, group)
  {
    if commands != [] {
      SameVisible(commands[1..], a, b, group);
    }
  }

  /**
   * Showing only adds lines to a section and hiding only removes some: what was (or stays) listed
   * is a selection, in order, of what is listed after (or was before). A group-level call leaves
   * every other section as it was.
   */
  lemma {:induction false} CallIsMonotone(commands: seq<CustomCommand>, v: VisibilityState, call: BuilderCall,
                                          group: Option<string>)
    ensures var before, after := VisibleIn(commands, v, group), VisibleIn(commands, Apply(v, call), group);
            && (call.show ==> VisibleIn(after, v, group) == before)
            && (!call.show ==> VisibleIn(before, Apply(v, call), group) == after)
            && (call.OnGroup? && group != Some(call.id) ==> after == before)
  {
    if call.show {
      FilteredTwice(commands, v, Apply(v, call), group);
    } else {
      FilteredTwice(commands, Apply(v, call), v, group);
    }
    if call.OnGroup? && group != Some(call.id) {
      SameVisible(commands, v, Apply(v, call), group);
    }
  }
}
