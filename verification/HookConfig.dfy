/** Editing a provider's hook configuration (`crates/installer/src/lib.rs`): stripping the
    program's own handlers, merging them in, and telling whether they are installed. */
module HookConfig {
  import opened Options
  import opened JsonValues

  datatype Provider = Claude | Codex

  datatype ConfigError = NotAnObject | HooksNotAnObject | EventNotAList(event: string)

  // ----- The managed definition -----

  const CLAUDE_EVENTS := ["SessionStart", "SessionEnd", "UserPromptSubmit", "PreToolUse", "PostToolUse",
                          "PostToolUseFailure", "PermissionRequest", "PermissionDenied", "Elicitation",
                          "Notification", "Stop", "StopFailure", "SubagentStart", "SubagentStop",
                          "TaskCreated", "TaskCompleted", "PreCompact"]
  const CODEX_EVENTS := ["SessionStart", "UserPromptSubmit", "PermissionRequest", "Stop"]
  const CODEX_ENHANCED_EVENTS := ["PreToolUse", "PostToolUse"]

  function DesiredEvents(provider: Provider, enhanced: bool): seq<string> {
    match provider
    case Claude => CLAUDE_EVENTS
    case Codex => CODEX_EVENTS + if enhanced then CODEX_ENHANCED_EVENTS else []
  }

  function Timeout(provider: Provider, event: string): int {
    if provider == Claude && event in {"PermissionRequest", "PreToolUse", "Elicitation"} then 86400
    else if provider == Codex && event == "PermissionRequest" then 3600
    else 5
  }

  function ManagedHandler(provider: Provider, event: string, command: string): Json {
    var timeout := Number(Timeout(provider, event));
    var handler := map["type" := Text("command"), "command" := Text(command), "timeout" := timeout];
    var status := if event == "PermissionRequest" then "Waiting for ActRealm approval" else "Updating ActRealm";
    Object(if provider == Codex then handler["statusMessage" := Text(status)] else handler)
  }

  /** `hook_group`. */
  function ManagedGroup(provider: Provider, event: string, command: string): Json {
    var group := map["hooks" := List([ManagedHandler(provider, event, command)])];
    Object(if provider == Codex then group["matcher" := Text("*")] else group)
  }

  // ----- Ownership -----

  const SEPARATOR := " hook --provider "

  /** The last place `part` occurs in `s`, or -1. */
  function LastIndexOf(s: string, part: string): (i: int)
    ensures i == -1 || 0 <= i <= |s| - |part|
  {
    if |s| < |part| then -1
    else if s[|s| - |part|..] == part then |s| - |part|
    else LastIndexOf(s[..|s| - 1], part)
  }

  /** `split_provider_hook`: program and provider of a hook command. */
  function SplitProviderHook(command: string): Option<(string, string)> {
    var i := LastIndexOf(command, SEPARATOR);
    if i <= 0 then None
    else
      var provider := command[i + |SEPARATOR|..];
      if provider in {"claude", "codex"} then Some((command[..i], provider)) else None
  }

  predicate IsQuoteMark(c: char) {
    c == '\'' || c == '"'
  }

  /** `trim_matches` of quote marks. */
  function TrimQuotes(s: string): string {
    if s == "" then ""
    else if IsQuoteMark(s[0]) then TrimQuotes(s[1..])
    else if IsQuoteMark(s[|s| - 1]) then TrimQuotes(s[..|s| - 1])
    else s
  }

  predicate EndsWith(s: string, suffix: string) {
    |suffix| <= |s| && s[|s| - |suffix|..] == suffix
  }

  predicate IsFamilyBinary(program: string) {
    EndsWith(program, "/.actrealm/bin/actrealm") || EndsWith(program, "/.flow-agent/bin/flow-agent")
  }

  /** `is_actrealm_family_hook`: an older or moved installation for the same provider. */
  predicate IsFamilyHook(candidate: string, desired: string) {
    var c, d := SplitProviderHook(candidate), SplitProviderHook(desired);
    c.Some? && d.Some? && c.value.1 == d.value.1 && IsFamilyBinary(TrimQuotes(c.value.0))
  }

  /** `is_owned_handler`. */
  predicate IsOwned(handler: Json, command: string) {
    var kind, candidate := handler.Get("type"), handler.Get("command");
    kind == Some(Text("command")) && candidate.Some? && candidate.value.Text?
    && (candidate.value.s == command || IsFamilyHook(candidate.value.s, command))
  }

  lemma ManagedIsOwned(provider: Provider, event: string, command: string)
    ensures IsOwned(ManagedHandler(provider, event, command), command)
  {
  }

  // ----- Stripping -----

  function Unowned(handlers: seq<Json>, command: string): (kept: seq<Json>)
    ensures forall h <- kept :: h in handlers && !IsOwned(h, command)
  {
    if handlers == [] then []
    else
      var front := Unowned(handlers[..|handlers| - 1], command);
      var last := handlers[|handlers| - 1];
      if IsOwned(last, command) then front else front + [last]
  }

  /** The handlers of a group, where it has a list of them. */
  function Handlers(group: Json): Option<seq<Json>> {
    var hooks := group.Get("hooks");
    if hooks.Some? && hooks.value.List? then Some(hooks.value.items) else None
  }

  /** A group left without handlers and with nothing else of the user's. */
  predicate IsHollow(group: Json) {
    group.Object? && Handlers(group) == Some([]) && group.fields.Keys <= {"matcher", "hooks"}
  }

  function WithoutOwned(group: Json, command: string): Json {
    if Handlers(group).None? then group
    else Object(group.fields["hooks" := List(Unowned(Handlers(group).value, command))])
  }

  function StripGroups(groups: seq<Json>, command: string): seq<Json> {
    if groups == [] then []
    else
      var front := StripGroups(groups[..|groups| - 1], command);
      var last := WithoutOwned(groups[|groups| - 1], command);
      if IsHollow(last) then front else front + [last]
  }

  function StripEvent(groups: Json, command: string): Json {
    if groups.List? then List(StripGroups(groups.items, command)) else groups
  }

  function StripHooks(hooks: map<string, Json>, command: string): map<string, Json> {
    map event | event in hooks && StripEvent(hooks[event], command) != List([])
      :: StripEvent(hooks[event], command)
  }

  /** The hooks of a configuration: None where it has none, an error where they are no object. */
  function HooksOf(config: Json): Result<Option<map<string, Json>>, ConfigError> {
    if !config.Object? then Err(NotAnObject)
    else if "hooks" !in config.fields then Ok(None)
    else if !config.fields["hooks"].Object? then Err(HooksNotAnObject)
    else Ok(Some(config.fields["hooks"].fields))
  }

  function SetHooks(config: Json, hooks: map<string, Json>): Json
    requires config.Object?
  {
    Object(if hooks == map[] then config.fields - {"hooks"} else config.fields["hooks" := Object(hooks)])
  }

  /** `strip_owned_hooks`. */
  function Strip(config: Json, command: string): Result<Json, ConfigError> {
    match HooksOf(config)
    case Err(e) => Err(e)
    case Ok(None) => Ok(config)
    case Ok(Some(hooks)) => Ok(SetHooks(config, StripHooks(hooks, command)))
  }

  // ----- Merging -----

  function GroupsOf(hooks: map<string, Json>, event: string): Json {
    if event in hooks then hooks[event] else List([])
  }

  /** Pushing the managed group of each event in turn, up to the first event that is no list. */
  function AddGroups(hooks: map<string, Json>, provider: Provider, command: string, events: seq<string>)
    : (map<string, Json>, Option<ConfigError>)
  {
    if events == [] then (hooks, None)
    else
      var (added, error) := AddGroups(hooks, provider, command, events[..|events| - 1]);
      var event := events[|events| - 1];
      if error.Some? then (added, error)
      else if !GroupsOf(added, event).List? then (added, Some(EventNotAList(event)))
      else (added[event := List(GroupsOf(added, event).items + [ManagedGroup(provider, event, command)])], None)
  }

  /** `merge_provider_hooks`: the tree it leaves, and its error if it stopped. */
  function Merge(config: Json, provider: Provider, command: string, enhanced: bool): (Json, Option<ConfigError>) {
    match Strip(config, command)
    case Err(e) => (config, Some(e))
    case Ok(stripped) =>
      var hooks := HooksOf(stripped);
      var (added, error) := AddGroups(if hooks.Ok? then hooks.value.GetOr(map[]) else map[], provider, command,
                                      DesiredEvents(provider, enhanced));
      (Object(if stripped.Object? then stripped.fields["hooks" := Object(added)] else map[]), error)
  }

  // ----- The tree, rewritten in place -----

  class HookTree {
    var root: Json

    constructor (config: Json)
      ensures root == config
    {
      root := config;
    }

    static method RetainHandlers(handlers: seq<Json>, command: string) returns (kept: seq<Json>)
      ensures kept == Unowned(handlers, command)
    {
      kept := [];
      for i := 0 to |handlers|
        invariant kept == Unowned(handlers[..i], command)
      {
        assert handlers[..i + 1][..i] == handlers[..i];
        if !IsOwned(handlers[i], command) {
          kept := kept + [handlers[i]];
        }
      }
      assert handlers[..|handlers|] == handlers;
    }

    static method RetainGroups(groups: seq<Json>, command: string) returns (kept: seq<Json>)
      ensures kept == StripGroups(groups, command)
    {
      kept := [];
      for i := 0 to |groups|
        invariant kept == StripGroups(groups[..i], command)
      {
        assert groups[..i + 1][..i] == groups[..i];
        var group := groups[i];
        if group.Object? && "hooks" in group.fields && group.fields["hooks"].List? {
          var handlers := RetainHandlers(group.fields["hooks"].items, command);
          group := Object(group.fields["hooks" := List(handlers)]);
          if handlers == [] && group.fields.Keys <= {"matcher", "hooks"} {
            continue;
          }
        }
        kept := kept + [group];
      }
      assert groups[..|groups|] == groups;
    }

    method StripOwnedHooks(command: string) returns (error: Option<ConfigError>)
      modifies this
      ensures match Strip(old(root), command)
              case Ok(stripped) => error.None? && root == stripped
              case Err(e) => error == Some(e) && root == old(root)
    {
      if !root.Object? {
        return Some(NotAnObject);
      }
      if "hooks" !in root.fields {
        return None;
      }
      if !root.fields["hooks"].Object? {
        return Some(HooksNotAnObject);
      }
      ghost var before := root.fields["hooks"].fields;
      var hooks := root.fields["hooks"].fields;
      var events := hooks.Keys;
      while events != {}
        invariant root == old(root) && events <= before.Keys
        invariant forall e :: e in events ==> e in hooks && hooks[e] == before[e]
        invariant forall e :: e !in events ==>
                    (e in hooks <==> e in StripHooks(before, command))
                    && (e in hooks ==> hooks[e] == StripHooks(before, command)[e])
        decreases events
      {
        var event :| event in events;
        events := events - {event};
        if hooks[event].List? {
          var groups := RetainGroups(hooks[event].items, command);
          if groups == [] {
            hooks := hooks - {event};
          } else {
            hooks := hooks[event := List(groups)];
          }
        }
      }
      assert hooks == StripHooks(before, command);
      root := if hooks == map[] then Object(root.fields - {"hooks"}) else Object(root.fields["hooks" := Object(hooks)]);
      error := None;
    }

    static method PushGroups(hooks: map<string, Json>, provider: Provider, command: string, desired: seq<string>)
      returns (added: map<string, Json>, error: Option<ConfigError>)
      ensures (added, error) == AddGroups(hooks, provider, command, desired)
    {
      hide ManagedGroup;
      added, error := hooks, None;
      for i := 0 to |desired|
        invariant (added, error) == AddGroups(hooks, provider, command, desired[..i])
        invariant error.None?
      {
        assert desired[..i + 1][..i] == desired[..i];
        var event := desired[i];
        ghost var before := added;
        if event !in added {
          added := added[event := List([])];
        }
        if !added[event].List? {
          error := Some(EventNotAList(event));
          AddStops(hooks, provider, command, desired, i + 1);
          return;
        }
        added := added[event := List(added[event].items + [ManagedGroup(provider, event, command)])];
        assert added == before[event := added[event]];
      }
      assert desired[..|desired|] == desired;
    }

    method MergeProviderHooks(provider: Provider, command: string, enhanced: bool) returns (error: Option<ConfigError>)
      modifies this
      ensures (root, error) == Merge(old(root), provider, command, enhanced)
    {
      hide DesiredEvents, AddGroups;
      error := StripOwnedHooks(command);
      if error.Some? {
        return;
      }
      ghost var stripped := root;
      if "hooks" !in root.fields {
        root := Object(root.fields["hooks" := Object(map[])]);
      }
      var added;
      added, error := PushGroups(root.fields["hooks"].fields, provider, command, DesiredEvents(provider, enhanced));
      root := Object(root.fields["hooks" := Object(added)]);
      assert root.fields == stripped.fields["hooks" := Object(added)];
    }
  }

  lemma {:induction false} AddStops(hooks: map<string, Json>, provider: Provider, command: string, events: seq<string>,
                                    n: nat)
    requires n <= |events| && AddGroups(hooks, provider, command, events[..n]).1.Some?
    ensures AddGroups(hooks, provider, command, events) == AddGroups(hooks, provider, command, events[..n])
    decreases |events|
  {
    if n < |events| {
      assert events[..|events| - 1][..n] == events[..n];
      AddStops(hooks, provider, command, events[..|events| - 1], n);
    } else {
      assert events[..n] == events;
    }
  }
}
