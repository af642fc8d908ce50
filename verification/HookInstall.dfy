/** Recognising an installation (`crates/installer/src/lib.rs`): what merging leaves passes
    the strictest check, and hooks from another home directory are recognised as ours. */
module HookInstall {
  import opened Options
  import opened JsonValues
  import opened HookConfig
  import opened HookAlgebra
  import Quoting

  // ----- The checks -----

  predicate HasOwned(groups: seq<Json>, command: string) {
    exists g, h :: 0 <= g < |groups| && Handlers(groups[g]).Some? && 0 <= h < |Handlers(groups[g]).value|
                   && IsOwned(Handlers(groups[g]).value[h], command)
  }

  predicate OwnedAt(config: Json, command: string, event: string) {
    HooksOf(config).Ok? && HooksOf(config).value.Some?
    && GroupsOf(HooksOf(config).value.value, event).List?
    && HasOwned(GroupsOf(HooksOf(config).value.value, event).items, command)
  }

  /** `has_complete_owned_install` on an object. */
  predicate Complete(config: Json, provider: Provider, command: string, enhanced: bool) {
    forall event <- DesiredEvents(provider, enhanced) :: OwnedAt(config, command, event)
  }

  datatype Location = Location(event: string, group: nat, handler: nat)

  /** The places of owned handlers in one event's groups. */
  function Places(groups: seq<Json>, command: string): set<(nat, nat)> {
    set g: nat, h: nat | g < |groups| && h < |Handlers(groups[g]).GetOr([])|
                         && IsOwned(Handlers(groups[g]).GetOr([])[h], command) :: (g, h)
  }

  /** `owned_hook_locations`: every place an owned handler stands; the program lists each once. */
  function Locations(config: Json, command: string): set<Location> {
    if HooksOf(config).Ok? && HooksOf(config).value.Some? then
      var hooks := HooksOf(config).value.value;
      set event, p | event in hooks && hooks[event].List? && p in Places(hooks[event].items, command)
        :: Location(event, p.0, p.1)
    else {}
  }

  /** `has_exact_owned_install` on an object. */
  predicate Exact(config: Json, provider: Provider, command: string, enhanced: bool) {
    var expected := DesiredEvents(provider, enhanced);
    && Complete(config, provider, command, enhanced)
    && |Locations(config, command)| == |expected|
    && HooksOf(config).Ok? && HooksOf(config).value.Some?
    && forall event <- expected ::
         GroupsOf(HooksOf(config).value.value, event).List?
         && ManagedGroup(provider, event, command) in GroupsOf(HooksOf(config).value.value, event).items
  }

  // ----- What is installed -----

  /** The events at which the agent waits for the user. */
  predicate AwaitsUser(provider: Provider, event: string) {
    event == "PermissionRequest" || (provider == Claude && (event == "PreToolUse" || event == "Elicitation"))
  }

  /** A managed group holds one handler, which runs the hook command: for up to a day (Claude) or an hour
      (Codex) where the agent waits for the user, and 5 seconds anywhere else. Codex groups match
      everything and say what goes on; nothing else is set. */
  lemma ManagedMeans(provider: Provider, event: string, command: string)
    ensures var group, handler := ManagedGroup(provider, event, command), ManagedHandler(provider, event, command);
            && Handlers(group) == Some([handler])
            && handler.Get("type") == Some(Text("command")) && handler.Get("command") == Some(Text(command))
            && (exists n :: handler.Get("timeout") == Some(Number(n)) && n in {5, 3_600, 24 * 3_600})
            && (handler.Get("timeout") == Some(Number(5)) <==> !AwaitsUser(provider, event))
            && (handler.Get("timeout") == Some(Number(24 * 3_600))
                <==> provider == Claude && AwaitsUser(provider, event))
            && (handler.Get("statusMessage").Some? <==> provider == Codex)
            && (handler.Get("statusMessage") == Some(Text("Waiting for ActRealm approval"))
                <==> provider == Codex && AwaitsUser(provider, event))
            && (handler.Get("statusMessage") == Some(Text("Updating ActRealm"))
                <==> provider == Codex && !AwaitsUser(provider, event))
            && group.Get("matcher") == (if provider == Codex then Some(Text("*")) else None)
            && handler.Object? && handler.fields.Keys <= {"type", "command", "timeout", "statusMessage"}
            && group.Object? && group.fields.Keys <= {"matcher", "hooks"}
  {
    var handler := ManagedHandler(provider, event, command);
    var names := ["type", "command", "timeout", "statusMessage", "matcher", "hooks"];
    assert |names[0]| == 4 && |names[1]| == |names[2]| == |names[4]| == 7 && |names[3]| == 13 && |names[5]| == 5;
    assert names[1][0] == 'c' && names[2][0] == 't' && names[4][0] == 'm';
    assert handler.Get("timeout") == Some(Number(Timeout(provider, event)));
    assert |"Waiting for ActRealm approval"| != |"Updating ActRealm"|;
  }

  /** Every event at which the agent waits is installed; enhanced activity adds two events to Codex's, and
      nothing to Claude's, which have them all. */
  lemma DesiredMeans(provider: Provider, enhanced: bool)
    ensures var events := DesiredEvents(provider, enhanced);
            && (forall event :: AwaitsUser(provider, event) ==> event in events)
            && |events| == (if provider == Claude then 17 else if enhanced then 6 else 4)
            && (provider == Codex ==> ("PreToolUse" in events <==> enhanced) && ("PostToolUse" in events <==> enhanced))
            && (forall event <- DesiredEvents(Codex, true) :: event in DesiredEvents(Claude, enhanced))
  {
    assert CLAUDE_EVENTS[0] == "SessionStart" && CLAUDE_EVENTS[2] == "UserPromptSubmit";
    assert CLAUDE_EVENTS[3] == "PreToolUse" && CLAUDE_EVENTS[4] == "PostToolUse";
    assert CLAUDE_EVENTS[6] == "PermissionRequest" && CLAUDE_EVENTS[8] == "Elicitation" && CLAUDE_EVENTS[10] == "Stop";
    assert CODEX_EVENTS[2] == "PermissionRequest";
    assert CODEX_ENHANCED_EVENTS[0] == "PreToolUse" && CODEX_ENHANCED_EVENTS[1] == "PostToolUse";
    LengthsDiffer();
  }

  lemma LengthsDiffer()
    ensures forall event <- CODEX_EVENTS :: event != "PreToolUse" && event != "PostToolUse"
  {
    assert |"PreToolUse"| == 10 && |"PostToolUse"| == 11;
    assert |CODEX_EVENTS[0]| == 12 && |CODEX_EVENTS[1]| == 16 && |CODEX_EVENTS[2]| == 17 && |CODEX_EVENTS[3]| == 4;
  }

  // ----- Merging installs exactly -----

  lemma {:induction false} StrippedHasNone(groups: seq<Json>, command: string)
    ensures Places(StripGroups(groups, command), command) == {}
  {
    var kept := StripGroups(groups, command);
    if groups != [] {
      var front, last := groups[..|groups| - 1], groups[|groups| - 1];
      StrippedHasNone(front, command);
      forall g: nat, h: nat | g < |kept| && h < |Handlers(kept[g]).GetOr([])|
        ensures !IsOwned(Handlers(kept[g]).GetOr([])[h], command)
      {
        var before := StripGroups(front, command);
        if g < |before| {
          assert kept[g] == before[g];
          assert (g, h) !in Places(before, command);
        } else {
          assert Handlers(kept[g]).GetOr([])[h] in Unowned(Handlers(last).GetOr([]), command);
        }
      }
    }
  }

  lemma PlacesOfAdded(groups: seq<Json>, provider: Provider, event: string, command: string)
    requires Places(groups, command) == {}
    ensures Places(groups + [ManagedGroup(provider, event, command)], command) == {(|groups|, 0)}
  {
    hide ManagedGroup;
    ManagedGroupStrips(provider, event, command);
    ManagedIsOwned(provider, event, command);
    var all := groups + [ManagedGroup(provider, event, command)];
    assert all[|groups|] == ManagedGroup(provider, event, command);
    forall g: nat, h: nat | g < |all| && h < |Handlers(all[g]).GetOr([])|
      ensures IsOwned(Handlers(all[g]).GetOr([])[h], command) <==> g == |groups| && h == 0
    {
      if g < |groups| {
        assert (g, h) !in Places(groups, command);
      }
    }
  }

  /** Counting one location for each event of a list without repeats. */
  lemma {:induction false} OnePerEvent(events: seq<string>, at: map<string, nat>)
    requires Distinct(events) && forall e <- events :: e in at
    ensures |set e | e in events :: Location(e, at[e], 0)| == |events|
  {
    var all := set e | e in events :: Location(e, at[e], 0);
    if events == [] {
      assert all == {};
    } else {
      var front, last := events[..|events| - 1], events[|events| - 1];
      OnePerEvent(front, at);
      var before := set e | e in front :: Location(e, at[e], 0);
      assert events == front + [last];
      assert all == before + {Location(last, at[last], 0)};
      assert Location(last, at[last], 0) !in before;
    }
  }

  /** Where the merge puts the owned handler of an event: after the groups that stay. */
  function EndOf(config: Json, command: string, event: string): nat {
    var groups := GroupsOf(Stripped(config, command), event);
    if groups.List? then |groups.items| else 0
  }

  lemma MergedPlaces(config: Json, provider: Provider, command: string, enhanced: bool, event: string)
    requires Merge(config, provider, command, enhanced).1.None?
    ensures var groups := GroupsOf(HooksOf(Merge(config, provider, command, enhanced).0).value.GetOr(map[]), event);
            groups.List? ==>
              Places(groups.items, command)
              == if event in DesiredEvents(provider, enhanced) then {(EndOf(config, command, event), 0)} else {}
  {
    hide DesiredEvents, AddGroups, ManagedGroup, Merge, Places;
    var events := DesiredEvents(provider, enhanced);
    var stripped := Stripped(config, command);
    MergeShape(config, provider, command, enhanced);
    DesiredDistinct(provider, enhanced);
    AddedGroups(stripped, provider, command, events);
    NoPlacesStripped(config, command, event);
    if event in events {
      PlacesOfAdded(GroupsOf(stripped, event).items, provider, event, command);
    }
  }

  /** After a merge, owned handlers stand exactly at the end of each desired event. */
  lemma MergedLocations(config: Json, provider: Provider, command: string, enhanced: bool)
    requires Merge(config, provider, command, enhanced).1.None?
    ensures Locations(Merge(config, provider, command, enhanced).0, command)
         == set e | e in DesiredEvents(provider, enhanced) :: Location(e, EndOf(config, command, e), 0)
  {
    hide DesiredEvents, AddGroups, ManagedGroup, Merge, Places, EndOf;
    var events := DesiredEvents(provider, enhanced);
    MergeShape(config, provider, command, enhanced);
    DesiredDistinct(provider, enhanced);
    AddedGroups(Stripped(config, command), provider, command, events);
    var added := HooksOf(Merge(config, provider, command, enhanced).0).value.value;
    forall e | e in added && added[e].List?
      ensures Places(added[e].items, command) == if e in events then {(EndOf(config, command, e), 0)} else {}
    {
      MergedPlaces(config, provider, command, enhanced, e);
    }
    forall e | e in events ensures e in added && added[e].List? {
    }
  }

  lemma NoPlacesStripped(config: Json, command: string, event: string)
    ensures var groups := GroupsOf(Stripped(config, command), event);
            groups.List? ==> Places(groups.items, command) == {}
  {
    if HooksOf(config).Ok? && HooksOf(config).value.Some? && GroupsOf(HooksOf(config).value.value, event).List? {
      StrippedHasNone(GroupsOf(HooksOf(config).value.value, event).items, command);
    }
  }

  /** A merged configuration passes the exact check. */
  lemma MergeInstallsExactly(config: Json, provider: Provider, command: string, enhanced: bool)
    requires Merge(config, provider, command, enhanced).1.None?
    ensures Exact(Merge(config, provider, command, enhanced).0, provider, command, enhanced)
  {
    hide DesiredEvents, AddGroups, ManagedGroup, Merge;
    var merged := Merge(config, provider, command, enhanced).0;
    var events := DesiredEvents(provider, enhanced);
    var stripped := Stripped(config, command);
    MergeShape(config, provider, command, enhanced);
    DesiredDistinct(provider, enhanced);
    AddedGroups(stripped, provider, command, events);
    MergedLocations(config, provider, command, enhanced);
    var at := map e | e in events :: EndOf(config, command, e);
    OnePerEvent(events, at);
    assert Locations(merged, command) == set e | e in events :: Location(e, at[e], 0);
    forall e <- events ensures OwnedAt(merged, command, e) {
      EndIsOwned(GroupsOf(stripped, e).items, provider, e, command);
    }
  }

  lemma EndIsOwned(groups: seq<Json>, provider: Provider, event: string, command: string)
    ensures HasOwned(groups + [ManagedGroup(provider, event, command)], command)
  {
    ManagedGroupStrips(provider, event, command);
    ManagedIsOwned(provider, event, command);
    var all := groups + [ManagedGroup(provider, event, command)];
    assert Handlers(all[|groups|]) == Some([ManagedHandler(provider, event, command)]);
    assert IsOwned(Handlers(all[|groups|]).value[0], command);
  }

  /** After a merge, exactly the desired events hold owned handlers. */
  lemma MergeOwnsDesired(config: Json, provider: Provider, command: string, enhanced: bool, event: string)
    requires Merge(config, provider, command, enhanced).1.None?
    ensures OwnedAt(Merge(config, provider, command, enhanced).0, command, event)
            <==> event in DesiredEvents(provider, enhanced)
  {
    hide DesiredEvents, AddGroups, ManagedGroup, Merge;
    var merged := Merge(config, provider, command, enhanced).0;
    MergeInstallsExactly(config, provider, command, enhanced);
    MergedLocations(config, provider, command, enhanced);
    if OwnedAt(merged, command, event) {
      var groups := HooksOf(merged).value.value[event].items;
      var g, h :| 0 <= g < |groups| && Handlers(groups[g]).Some? && 0 <= h < |Handlers(groups[g]).value|
                  && IsOwned(Handlers(groups[g]).value[h], command);
      assert (g, h) in Places(groups, command);
      assert Location(event, g, h) in Locations(merged, command);
    }
  }

  // ----- Whose hook a command is -----

  /** The last separator of a hook command is the one it was built with. */
  lemma SplitsWhereJoined(q: string, provider: string)
    requires q != "" && provider in {"claude", "codex"}
    ensures SplitProviderHook(q + SEPARATOR + provider) == Some((q, provider))
  {
    var s := q + SEPARATOR + provider;
    SeparatorSlips();
    assert |provider| <= 6;
    LastSeparator(q, SEPARATOR, provider);
    assert s[|q|..] == SEPARATOR + provider;
    assert s[|q| + |SEPARATOR|..] == provider && s[..|q|] == q;
  }

  /** `sep` moved `n` places along itself does not match. */
  predicate Slips(sep: string, n: nat)
    requires n + 1 < |sep|
  {
    sep[n] != sep[0] || sep[n + 1] != sep[1]
  }

  lemma SeparatorSlips()
    ensures |SEPARATOR| == 17 && forall n :: 1 <= n <= 6 ==> Slips(SEPARATOR, n)
  {
    assert SEPARATOR == [' ', 'h', 'o', 'o', 'k', ' ', '-', '-', 'p', 'r', 'o', 'v', 'i', 'd', 'e', 'r', ' '];
  }

  lemma {:induction false} LastSeparator(q: string, sep: string, tail: string)
    requires |tail| + 1 < |sep| && forall n :: 1 <= n <= |tail| ==> Slips(sep, n)
    ensures LastIndexOf(q + sep + tail, sep) == |q|
  {
    var s := q + sep + tail;
    var end := s[|s| - |sep|..];
    if tail == "" {
      assert end == sep;
    } else {
      var n := |tail|;
      assert s[..|s| - 1] == q + sep + tail[..n - 1];
      LastSeparator(q, sep, tail[..n - 1]);
      assert Slips(sep, n) && end[0] == sep[n] && end[1] == sep[n + 1];
    }
  }

  lemma {:induction false} TrimKeepsEnd(front: string, suffix: string, marks: string)
    requires suffix != "" && !IsQuoteMark(suffix[0]) && !IsQuoteMark(suffix[|suffix| - 1])
    requires forall i :: 0 <= i < |marks| ==> IsQuoteMark(marks[i])
    ensures EndsWith(TrimQuotes(front + suffix + marks), suffix)
    decreases |front| + |marks|
  {
    var s := front + suffix + marks;
    if IsQuoteMark(s[0]) {
      assert front != "";
      assert s[1..] == front[1..] + suffix + marks;
      TrimKeepsEnd(front[1..], suffix, marks);
    } else if marks != "" {
      assert s[|s| - 1] == marks[|marks| - 1];
      assert s[..|s| - 1] == front + suffix + marks[..|marks| - 1];
      TrimKeepsEnd(front, suffix, marks[..|marks| - 1]);
    } else {
      assert s == front + suffix;
      assert s[|s| - 1] == suffix[|suffix| - 1];
    }
  }

  const INSTALLED_BINARY := "/.actrealm/bin/actrealm"
  const FORMER_BINARY := "/.flow-agent/bin/flow-agent"

  lemma QuotedBinaryIsFamily(home: string, installed: string)
    requires installed == INSTALLED_BINARY || installed == FORMER_BINARY
    ensures IsFamilyBinary(TrimQuotes(Quoting.ShellQuote(home + installed)))
  {
    hide Quoting.Replace, Quoting.AllPlain, TrimQuotes, EndsWith;
    var path := home + installed;
    if Quoting.AllPlain(path) {
      assert home + installed + "" == path;
      TrimKeepsEnd(home, installed, "");
    } else {
      Quoting.ReplaceConcat(home, installed, Quoting.QUOTE, Quoting.ESCAPED_QUOTE);
      Quoting.ReplaceAbsent(installed, Quoting.QUOTE, Quoting.ESCAPED_QUOTE);
      var front := "'" + Quoting.Replace(home, Quoting.QUOTE, Quoting.ESCAPED_QUOTE);
      assert Quoting.Quote(path) == front + installed + "'";
      TrimKeepsEnd(front, installed, "'");
    }
  }

  lemma HookCommandSplits(binary: string, provider: string)
    requires binary != "" && provider in {"claude", "codex"}
    ensures SplitProviderHook(Quoting.HookCommand(binary, provider)) == Some((Quoting.ShellQuote(binary), provider))
  {
    assert Quoting.HookCommand(binary, provider) == Quoting.ShellQuote(binary) + SEPARATOR + provider;
    SplitsWhereJoined(Quoting.ShellQuote(binary), provider);
  }

  /** The hook of any home directory's installation, under the program's name or its former one, quoted
      or not, is owned under the command of any other for the same provider, and never under the other
      provider's. */
  lemma OwnershipCrossesHomes(home: string, installed: string, binary: string, ours: string, theirs: string)
    requires installed == INSTALLED_BINARY || installed == FORMER_BINARY
    requires binary != "" && ours in {"claude", "codex"} && theirs in {"claude", "codex"}
    ensures var handler := Object(map["type" := Text("command"),
                                      "command" := Text(Quoting.HookCommand(home + installed, theirs))]);
            IsOwned(handler, Quoting.HookCommand(binary, ours)) <==> ours == theirs
  {
    HookCommandSplits(home + installed, theirs);
    HookCommandSplits(binary, ours);
    QuotedBinaryIsFamily(home, installed);
  }
}
