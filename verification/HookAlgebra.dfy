/** What stripping and merging promise a user's configuration, and each other. */
module HookAlgebra {
  import opened Options
  import opened JsonValues
  import opened HookConfig

  // ----- Lists -----

  lemma {:induction false} UnownedIdempotent(handlers: seq<Json>, command: string)
    ensures Unowned(Unowned(handlers, command), command) == Unowned(handlers, command)
  {
    if handlers != [] {
      var front, last := handlers[..|handlers| - 1], handlers[|handlers| - 1];
      UnownedIdempotent(front, command);
      if !IsOwned(last, command) {
        UnownedLast(Unowned(front, command), last, command);
      }
    }
  }

  lemma UnownedLast(front: seq<Json>, last: Json, command: string)
    ensures Unowned(front + [last], command)
         == Unowned(front, command) + (if IsOwned(last, command) then [] else [last])
  {
    assert (front + [last])[..|front|] == front;
  }

  lemma StripLast(front: seq<Json>, last: Json, command: string)
    ensures var w := WithoutOwned(last, command);
            StripGroups(front + [last], command) == StripGroups(front, command) + (if IsHollow(w) then [] else [w])
  {
    assert (front + [last])[..|front|] == front;
  }

  lemma WithoutOwnedIdempotent(group: Json, command: string)
    ensures WithoutOwned(WithoutOwned(group, command), command) == WithoutOwned(group, command)
  {
    if Handlers(group).Some? {
      UnownedIdempotent(Handlers(group).value, command);
      var w := WithoutOwned(group, command);
      assert WithoutOwned(w, command).fields == w.fields;
    }
  }

  lemma {:induction false} StripGroupsIdempotent(groups: seq<Json>, command: string)
    ensures StripGroups(StripGroups(groups, command), command) == StripGroups(groups, command)
  {
    if groups != [] {
      var front, last := groups[..|groups| - 1], groups[|groups| - 1];
      StripGroupsIdempotent(front, command);
      WithoutOwnedIdempotent(last, command);
      var w := WithoutOwned(last, command);
      if !IsHollow(w) {
        StripLast(StripGroups(front, command), w, command);
      }
    }
  }

  lemma StripHooksIdempotent(hooks: map<string, Json>, command: string)
    ensures StripHooks(StripHooks(hooks, command), command) == StripHooks(hooks, command)
  {
    var once := StripHooks(hooks, command);
    forall event | event in once ensures StripEvent(once[event], command) == once[event] {
      if hooks[event].List? {
        StripGroupsIdempotent(hooks[event].items, command);
      }
    }
  }

  lemma HooksOfSet(config: Json, hooks: map<string, Json>)
    requires config.Object?
    ensures HooksOf(SetHooks(config, hooks)) == Ok(if hooks == map[] then None else Some(hooks))
  {
  }

  /** The hooks a stripped configuration has, where stripping succeeds. */
  function Stripped(config: Json, command: string): map<string, Json> {
    var hooks := HooksOf(config);
    if hooks.Ok? && hooks.value.Some? then StripHooks(hooks.value.value, command) else map[]
  }

  lemma StripHasStripped(config: Json, command: string)
    requires Strip(config, command).Ok?
    ensures HooksOf(Strip(config, command).value).Ok?
    ensures HooksOf(Strip(config, command).value).value.GetOr(map[]) == Stripped(config, command)
    ensures Strip(config, command).value.Object? && config.Object?
    ensures Strip(config, command).value.fields - {"hooks"} == config.fields - {"hooks"}
    ensures Strip(config, command).value
         == SetHooks(config, Stripped(config, command))
  {
    if HooksOf(config).value.None? {
      assert config.fields - {"hooks"} == config.fields;
    }
  }

  /** Stripping twice is stripping once. */
  lemma StripIdempotent(config: Json, command: string)
    requires Strip(config, command).Ok?
    ensures Strip(Strip(config, command).value, command) == Strip(config, command)
  {
    StripHasStripped(config, command);
    var once := Strip(config, command).value;
    if HooksOf(config).value.Some? {
      StripHooksIdempotent(HooksOf(config).value.value, command);
      assert SetHooks(once, Stripped(config, command)) == once;
    }
  }

  // ----- Adding the managed groups -----

  ghost predicate Distinct(events: seq<string>) {
    forall i, j :: 0 <= i < j < |events| ==> events[i] != events[j]
  }

  /** Length and fourth letter tell all event names apart. */
  function Tag(event: string): int {
    if |event| < 4 then 0 else |event| * 256 + event[3] as int
  }

  lemma ClaudeDistinct()
    ensures Distinct(CLAUDE_EVENTS)
  {
    var tags := [12 * 256 + 's' as int, 10 * 256 + 's' as int, 16 * 256 + 'r' as int, 10 * 256 + 'T' as int,
                 11 * 256 + 't' as int, 18 * 256 + 't' as int, 17 * 256 + 'm' as int, 16 * 256 + 'm' as int,
                 11 * 256 + 'c' as int, 12 * 256 + 'i' as int, 4 * 256 + 'p' as int, 11 * 256 + 'p' as int,
                 13 * 256 + 'a' as int, 12 * 256 + 'a' as int, 11 * 256 + 'k' as int, 13 * 256 + 'k' as int,
                 10 * 256 + 'C' as int];
    assert forall i :: 0 <= i < 17 ==> Tag(CLAUDE_EVENTS[i]) == tags[i];
    assert forall i, j :: 0 <= i < j < 17 ==> tags[i] != tags[j];
  }

  lemma DesiredDistinct(provider: Provider, enhanced: bool)
    ensures Distinct(DesiredEvents(provider, enhanced))
  {
    if provider == Claude {
      ClaudeDistinct();
    } else {
      var events := DesiredEvents(Codex, enhanced);
      assert forall i, j :: 0 <= i < j < |events| ==> Tag(events[i]) != Tag(events[j]);
    }
  }

  /** Adding succeeds exactly when every event is absent or a list. */
  lemma {:induction false} AddedGroups(hooks: map<string, Json>, provider: Provider, command: string,
                                       events: seq<string>)
    requires Distinct(events)
    ensures var (added, error) := AddGroups(hooks, provider, command, events);
            && (error.None? <==> forall e <- events :: GroupsOf(hooks, e).List?)
            && (error.None? ==>
                  && added.Keys == hooks.Keys + (set e | e in events)
                  && (forall e :: e in hooks && e !in events ==> added[e] == hooks[e])
                  && (forall e <- events ::
                        added[e] == List(GroupsOf(hooks, e).items + [ManagedGroup(provider, e, command)])))
  {
    hide ManagedGroup;
    if events != [] {
      var front, last := events[..|events| - 1], events[|events| - 1];
      AddedGroups(hooks, provider, command, front);
      assert events == front + [last];
      assert last !in front;
      var (added, error) := AddGroups(hooks, provider, command, front);
      if error.None? {
        assert GroupsOf(added, last) == GroupsOf(hooks, last);
      }
    }
  }

  /** The managed group goes without trace. */
  lemma ManagedGroupStrips(provider: Provider, event: string, command: string)
    ensures var m := ManagedGroup(provider, event, command);
            && IsHollow(WithoutOwned(m, command))
            && Handlers(m) == Some([ManagedHandler(provider, event, command)])
  {
    ManagedIsOwned(provider, event, command);
    var h := ManagedHandler(provider, event, command);
    assert [h][..0] == [];
    assert Unowned([h], command) == [];
  }

  lemma StripUndoesAdd(stripped: map<string, Json>, provider: Provider, command: string, events: seq<string>)
    requires Distinct(events) && StripHooks(stripped, command) == stripped
    requires AddGroups(stripped, provider, command, events).1.None?
    ensures StripHooks(AddGroups(stripped, provider, command, events).0, command) == stripped
  {
    hide ManagedGroup, AddGroups;
    var added := AddGroups(stripped, provider, command, events).0;
    AddedGroups(stripped, provider, command, events);
    forall e | e in added
      ensures StripEvent(added[e], command) == GroupsOf(stripped, e)
    {
      if e in stripped {
        assert StripEvent(stripped[e], command) == stripped[e];
      }
      if e in events {
        ManagedGroupStrips(provider, e, command);
        StripLast(GroupsOf(stripped, e).items, ManagedGroup(provider, e, command), command);
      }
    }
    forall e | e in stripped ensures stripped[e] != List([]) {
      assert e in StripHooks(stripped, command);
    }
  }

  /** When merging succeeds: the configuration is an object, its hooks are one or absent, and
      each desired event is a list or absent. */
  ghost predicate Mergeable(config: Json, provider: Provider, enhanced: bool) {
    && HooksOf(config).Ok?
    && (HooksOf(config).value.Some? ==>
          forall e <- DesiredEvents(provider, enhanced) :: GroupsOf(HooksOf(config).value.value, e).List?)
  }

  lemma StripKeepsLists(hooks: map<string, Json>, command: string, event: string)
    ensures GroupsOf(StripHooks(hooks, command), event).List? <==> GroupsOf(hooks, event).List?
  {
  }

  lemma MergeSucceeds(config: Json, provider: Provider, command: string, enhanced: bool)
    ensures Merge(config, provider, command, enhanced).1.None? <==> Mergeable(config, provider, enhanced)
  {
    hide DesiredEvents, AddGroups;
    if Strip(config, command).Ok? {
      StripHasStripped(config, command);
      DesiredDistinct(provider, enhanced);
      AddedGroups(Stripped(config, command), provider, command, DesiredEvents(provider, enhanced));
      forall e | e in DesiredEvents(provider, enhanced) && HooksOf(config).value.Some?
        ensures GroupsOf(Stripped(config, command), e).List? <==> GroupsOf(HooksOf(config).value.value, e).List?
      {
        StripKeepsLists(HooksOf(config).value.value, command, e);
      }
    }
  }

  /** `event` is the first of `events` that has something other than a list. */
  ghost predicate FirstBad(events: seq<string>, hooks: map<string, Json>, event: string) {
    exists k :: 0 <= k < |events| && events[k] == event && !GroupsOf(hooks, event).List?
                && forall j :: 0 <= j < k ==> GroupsOf(hooks, events[j]).List?
  }

  lemma {:induction false} AddGroupsError(hooks: map<string, Json>, provider: Provider, command: string,
                                          events: seq<string>)
    requires Distinct(events)
    ensures var error := AddGroups(hooks, provider, command, events).1;
            error.Some? ==> error.value.EventNotAList? && FirstBad(events, hooks, error.value.event)
  {
    hide ManagedGroup;
    if events != [] {
      var front, last := events[..|events| - 1], events[|events| - 1];
      AddGroupsError(hooks, provider, command, front);
      AddedGroups(hooks, provider, command, front);
      var (added, error) := AddGroups(hooks, provider, command, front);
      assert last !in front;
      if error.None? {
        assert GroupsOf(added, last) == GroupsOf(hooks, last);
        assert forall j :: 0 <= j < |front| ==> events[j] == front[j];
        assert !GroupsOf(hooks, last).List? ==> FirstBad(events, hooks, last);
      } else {
        var k :| 0 <= k < |front| && front[k] == error.value.event && !GroupsOf(hooks, front[k]).List?
                 && forall j :: 0 <= j < k ==> GroupsOf(hooks, front[j]).List?;
        assert events[k] == error.value.event && forall j :: 0 <= j < k ==> events[j] == front[j];
      }
    }
  }

  /** Why a merge fails, and a strip: the configuration is no object, its hooks are none, or, for a merge,
      the first desired event that holds something else than a list is reported. */
  lemma ErrorsMean(config: Json, provider: Provider, command: string, enhanced: bool)
    ensures var error, stripped := Merge(config, provider, command, enhanced).1, Strip(config, command);
            && (error == Some(NotAnObject) <==> !config.Object?)
            && (error == Some(HooksNotAnObject)
                <==> config.Object? && config.Get("hooks").Some? && !config.Get("hooks").value.Object?)
            && (error.Some? && error.value.EventNotAList? ==>
                  && config.Get("hooks").Some? && config.Get("hooks").value.Object?
                  && FirstBad(DesiredEvents(provider, enhanced), config.Get("hooks").value.fields, error.value.event))
            && (stripped.Err? ==> error == Some(stripped.error))
            && (stripped.Ok? && error.Some? ==> error.value.EventNotAList?)
  {
    hide DesiredEvents, AddGroups, StripHooks;
    if Strip(config, command).Ok? {
      var events := DesiredEvents(provider, enhanced);
      StripHasStripped(config, command);
      DesiredDistinct(provider, enhanced);
      AddGroupsError(Stripped(config, command), provider, command, events);
      var error := Merge(config, provider, command, enhanced).1;
      if error.Some? {
        SameFirstBad(config, command, events, error.value.event);
      }
    }
  }

  lemma SameFirstBad(config: Json, command: string, events: seq<string>, event: string)
    requires FirstBad(events, Stripped(config, command), event)
    ensures HooksOf(config).Ok? && HooksOf(config).value.Some?
    ensures FirstBad(events, HooksOf(config).value.value, event)
  {
    hide StripHooks;
    if HooksOf(config).Ok? && HooksOf(config).value.Some? {
      forall e: string
        ensures GroupsOf(Stripped(config, command), e).List? <==> GroupsOf(HooksOf(config).value.value, e).List?
      {
        StripKeepsLists(HooksOf(config).value.value, command, e);
      }
    }
  }

  /** A successful merge, in terms of what stripping leaves. */
  lemma MergeShape(config: Json, provider: Provider, command: string, enhanced: bool)
    requires Merge(config, provider, command, enhanced).1.None?
    ensures Strip(config, command).Ok?
    ensures var merged := Merge(config, provider, command, enhanced).0;
            var events := DesiredEvents(provider, enhanced);
            var (added, error) := AddGroups(Stripped(config, command), provider, command, events);
            && error.None?
            && merged.Object? && HooksOf(merged) == Ok(Some(added))
            && merged.fields - {"hooks"} == config.fields - {"hooks"}
  {
    hide DesiredEvents, AddGroups;
    StripHasStripped(config, command);
    var stripped := Strip(config, command).value;
    var merged := Merge(config, provider, command, enhanced).0;
    assert merged.fields - {"hooks"} == stripped.fields - {"hooks"};
  }

  /** Uninstalling after installing leaves what uninstalling alone leaves. */
  lemma StripAfterMerge(config: Json, provider: Provider, command: string, enhanced: bool)
    requires Merge(config, provider, command, enhanced).1.None?
    ensures Strip(Merge(config, provider, command, enhanced).0, command) == Strip(config, command)
  {
    hide DesiredEvents, AddGroups;
    MergeShape(config, provider, command, enhanced);
    StripHasStripped(config, command);
    DesiredDistinct(provider, enhanced);
    if HooksOf(config).value.Some? {
      StripHooksIdempotent(HooksOf(config).value.value, command);
    }
    StripUndoesAdd(Stripped(config, command), provider, command, DesiredEvents(provider, enhanced));
    SameOutsideHooks(Merge(config, provider, command, enhanced).0, config, Stripped(config, command));
  }

  lemma SameOutsideHooks(a: Json, b: Json, hooks: map<string, Json>)
    requires a.Object? && b.Object? && a.fields - {"hooks"} == b.fields - {"hooks"}
    ensures SetHooks(a, hooks) == SetHooks(b, hooks)
  {
    var x, y := a.fields["hooks" := Object(hooks)], b.fields["hooks" := Object(hooks)];
    forall k | k in x && k != "hooks" ensures k in y && x[k] == y[k] {
      assert k in a.fields - {"hooks"};
    }
    forall k | k in y && k != "hooks" ensures k in x {
      assert k in b.fields - {"hooks"};
    }
    assert x == y;
  }

  /** Installing twice is installing once. */
  lemma MergeIdempotent(config: Json, provider: Provider, command: string, enhanced: bool)
    requires Merge(config, provider, command, enhanced).1.None?
    ensures Merge(Merge(config, provider, command, enhanced).0, provider, command, enhanced)
         == Merge(config, provider, command, enhanced)
  {
    StripAfterMerge(config, provider, command, enhanced);
  }

  // ----- The user's own entries -----

  /** The handlers of an event that are not the program's, in order. */
  function UnownedIn(groups: seq<Json>, command: string): seq<Json> {
    if groups == [] then []
    else
      UnownedIn(groups[..|groups| - 1], command)
      + Unowned(Handlers(groups[|groups| - 1]).GetOr([]), command)
  }

  function UnownedOf(config: Json, event: string, command: string): seq<Json> {
    var hooks := HooksOf(config);
    if hooks.Ok? && hooks.value.Some? && GroupsOf(hooks.value.value, event).List?
    then UnownedIn(GroupsOf(hooks.value.value, event).items, command) else []
  }

  lemma UnownedInLast(front: seq<Json>, last: Json, command: string)
    ensures UnownedIn(front + [last], command)
         == UnownedIn(front, command) + Unowned(Handlers(last).GetOr([]), command)
  {
    assert (front + [last])[..|front|] == front;
  }

  lemma {:induction false} StripKeepsUnowned(groups: seq<Json>, command: string)
    ensures UnownedIn(StripGroups(groups, command), command) == UnownedIn(groups, command)
  {
    if groups != [] {
      var front, last := groups[..|groups| - 1], groups[|groups| - 1];
      StripKeepsUnowned(front, command);
      var w := WithoutOwned(last, command);
      if Handlers(last).Some? {
        UnownedIdempotent(Handlers(last).value, command);
      }
      if !IsHollow(w) {
        UnownedInLast(StripGroups(front, command), w, command);
      }
    }
  }

  /** A group as stripping keeps it: without the program's handlers, and alike in all else. */
  ghost predicate KeptGroup(kept: Json, group: Json, command: string) {
    if Handlers(group).None? then kept == group
    else
      && kept.Object? && group.Object? && kept.fields - {"hooks"} == group.fields - {"hooks"}
      && Handlers(kept) == Some(Unowned(Handlers(group).value, command))
  }

  /** Nothing of a group is the user's: it has no handler but the program's, and no field but these
      and a matcher. */
  ghost predicate NothingOfUsers(group: Json, command: string) {
    && group.Object? && group.fields.Keys <= {"matcher", "hooks"}
    && Handlers(group).Some? && Unowned(Handlers(group).value, command) == []
  }

  /** `kept` are the groups of `groups` at the places `at`, in order, and nothing of any other group
      is the user's. */
  ghost predicate KeepsGroups(kept: seq<Json>, groups: seq<Json>, command: string, at: seq<nat>) {
    && |at| == |kept|
    && (forall k :: 0 <= k < |at| ==> at[k] < |groups| && KeptGroup(kept[k], groups[at[k]], command))
    && (forall j, k :: 0 <= j < k < |at| ==> at[j] < at[k])
    && (forall i :: 0 <= i < |groups| && i !in at ==> NothingOfUsers(groups[i], command))
  }

  ghost predicate GroupsKept(kept: seq<Json>, groups: seq<Json>, command: string) {
    exists at :: KeepsGroups(kept, groups, command, at)
  }

  lemma {:induction false} StripKeepsGroups(groups: seq<Json>, command: string) returns (at: seq<nat>)
    ensures KeepsGroups(StripGroups(groups, command), groups, command, at)
  {
    hide KeepsGroups, WithoutOwned, IsHollow, NothingOfUsers;
    if groups == [] {
      at := [];
      NoGroups(command);
    } else {
      var n := |groups| - 1;
      at := StripKeepsGroups(groups[..n], command);
      WithoutOwnedKeeps(groups[n], command);
      KeepsOneMore(StripGroups(groups[..n], command), groups, n, command, at);
      if !IsHollow(WithoutOwned(groups[n], command)) {
        at := at + [n];
      }
    }
  }

  lemma NoGroups(command: string)
    ensures KeepsGroups([], [], command, [])
  {
  }

  lemma KeepsOneMore(kept: seq<Json>, groups: seq<Json>, n: nat, command: string, at: seq<nat>)
    requires n + 1 == |groups| && KeepsGroups(kept, groups[..n], command, at)
    ensures forall last :: KeptGroup(last, groups[n], command) ==> KeepsGroups(kept + [last], groups, command, at + [n])
    ensures NothingOfUsers(groups[n], command) ==> KeepsGroups(kept, groups, command, at)
  {
    hide KeptGroup, NothingOfUsers;
    assert forall i :: 0 <= i < n ==> groups[..n][i] == groups[i];
  }

  lemma WithoutOwnedKeeps(group: Json, command: string)
    ensures KeptGroup(WithoutOwned(group, command), group, command)
    ensures IsHollow(WithoutOwned(group, command)) ==> NothingOfUsers(group, command)
  {
  }

  /** The groups of an event, where it has a list of them. */
  function EventGroups(config: Json, event: string): seq<Json> {
    var hooks := HooksOf(config);
    if hooks.Ok? && hooks.value.Some? && GroupsOf(hooks.value.value, event).List?
    then GroupsOf(hooks.value.value, event).items else []
  }

  /** The groups a merge adds to an event. */
  function ManagedGroups(provider: Provider, command: string, enhanced: bool, event: string): seq<Json> {
    if event in DesiredEvents(provider, enhanced) then [ManagedGroup(provider, event, command)] else []
  }

  /** The groups of an event after a merge: the user's as they were, but for the program's handlers,
      and then the managed one where the event is desired. */
  ghost predicate MergedGroups(merged: seq<Json>, groups: seq<Json>, command: string, managed: seq<Json>) {
    exists n :: 0 <= n <= |merged| && merged[n..] == managed && GroupsKept(merged[..n], groups, command)
  }

  lemma StrippedGroups(config: Json, command: string, event: string)
    requires Strip(config, command).Ok?
    ensures var groups := GroupsOf(Stripped(config, command), event);
            GroupsKept(if groups.List? then groups.items else [], EventGroups(config, event), command)
  {
    var at := StripKeepsGroups(EventGroups(config, event), command);
    hide KeepsGroups;
  }

  /** What an event holds after a merge. */
  lemma MergedEvent(config: Json, provider: Provider, command: string, enhanced: bool, event: string)
    requires Merge(config, provider, command, enhanced).1.None?
    ensures Strip(config, command).Ok?
    ensures var merged := Merge(config, provider, command, enhanced).0;
            var before := GroupsOf(Stripped(config, command), event);
            && merged.Object? && merged.fields - {"hooks"} == config.fields - {"hooks"}
            && HooksOf(merged).Ok? && HooksOf(merged).value.Some?
            && GroupsOf(HooksOf(merged).value.value, event)
               == (if event in DesiredEvents(provider, enhanced) && before.List?
                   then List(before.items + [ManagedGroup(provider, event, command)]) else before)
            && (event in DesiredEvents(provider, enhanced) ==> before.List?)
  {
    MergeShape(config, provider, command, enhanced);
    DesiredDistinct(provider, enhanced);
    hide Merge, Strip, Stripped, DesiredEvents, AddGroups, ManagedGroup, HooksOf;
    AddedGroups(Stripped(config, command), provider, command, DesiredEvents(provider, enhanced));
  }

  lemma MergedGroupsOf(config: Json, provider: Provider, command: string, enhanced: bool, event: string)
    requires Merge(config, provider, command, enhanced).1.None?
    ensures MergedGroups(EventGroups(Merge(config, provider, command, enhanced).0, event), EventGroups(config, event),
                         command, ManagedGroups(provider, command, enhanced, event))
  {
    hide KeepsGroups, GroupsKept, Merge, Strip, Stripped, DesiredEvents, ManagedGroup, HooksOf;
    MergedEvent(config, provider, command, enhanced, event);
    var groups := GroupsOf(Stripped(config, command), event);
    var kept := if groups.List? then groups.items else [];
    var managed := ManagedGroups(provider, command, enhanced, event);
    StrippedGroups(config, command, event);
    assert EventGroups(Merge(config, provider, command, enhanced).0, event) == kept + managed;
    KeptThenManaged(kept, managed, EventGroups(config, event), command);
  }

  lemma KeptThenManaged(kept: seq<Json>, managed: seq<Json>, groups: seq<Json>, command: string)
    requires GroupsKept(kept, groups, command)
    ensures MergedGroups(kept + managed, groups, command, managed)
  {
    hide GroupsKept;
    var merged := kept + managed;
    assert merged[..|kept|] == kept && merged[|kept|..] == managed;
  }

  /** Every handler that is not the program's keeps its event, its group and its place among the
      others; events that are no lists, and every other setting, are left as they were. */
  lemma MergeKeepsUserEntries(config: Json, provider: Provider, command: string, enhanced: bool, event: string)
    requires Merge(config, provider, command, enhanced).1.None?
    ensures var merged := Merge(config, provider, command, enhanced).0;
            && config.Object? && merged.Object?
            && merged.fields - {"hooks"} == config.fields - {"hooks"}
            && UnownedOf(merged, event, command) == UnownedOf(config, event, command)
            && MergedGroups(EventGroups(merged, event), EventGroups(config, event), command,
                            ManagedGroups(provider, command, enhanced, event))
            && (HooksOf(config).Ok? && HooksOf(config).value.Some?
                && !GroupsOf(HooksOf(config).value.value, event).List? ==>
                  HooksOf(merged) == Ok(Some(HooksOf(merged).value.value))
                  && GroupsOf(HooksOf(merged).value.value, event) == GroupsOf(HooksOf(config).value.value, event))
  {
    MergedGroupsOf(config, provider, command, enhanced, event);
    MergedUnowned(config, provider, command, enhanced, event);
    hide Merge, MergedGroups, EventGroups, UnownedOf, DesiredEvents, ManagedGroup;
  }

  lemma MergedUnowned(config: Json, provider: Provider, command: string, enhanced: bool, event: string)
    requires Merge(config, provider, command, enhanced).1.None?
    ensures var merged := Merge(config, provider, command, enhanced).0;
            && config.Object? && merged.Object?
            && merged.fields - {"hooks"} == config.fields - {"hooks"}
            && UnownedOf(merged, event, command) == UnownedOf(config, event, command)
            && (HooksOf(config).Ok? && HooksOf(config).value.Some?
                && !GroupsOf(HooksOf(config).value.value, event).List? ==>
                  HooksOf(merged) == Ok(Some(HooksOf(merged).value.value))
                  && GroupsOf(HooksOf(merged).value.value, event) == GroupsOf(HooksOf(config).value.value, event))
  {
    MergedEvent(config, provider, command, enhanced, event);
    StripHasStripped(config, command);
    StripKeepsUserEntries(config, command, event);
    hide Merge, Strip, DesiredEvents, ManagedGroup, GroupsKept, EventGroups;
    if event in DesiredEvents(provider, enhanced) {
      ManagedGroupStrips(provider, event, command);
      var m := ManagedGroup(provider, event, command);
      UnownedInLast(GroupsOf(Stripped(config, command), event).items, m, command);
      ManagedIsOwned(provider, event, command);
      UnownedLast([], ManagedHandler(provider, event, command), command);
      assert [] + [ManagedHandler(provider, event, command)] == [ManagedHandler(provider, event, command)];
    }
  }

  lemma StripKeepsUserEntries(config: Json, command: string, event: string)
    requires Strip(config, command).Ok?
    ensures var groups := GroupsOf(Stripped(config, command), event);
            UnownedOf(config, event, command) == if groups.List? then UnownedIn(groups.items, command) else []
    ensures var groups := GroupsOf(Stripped(config, command), event);
            GroupsKept(if groups.List? then groups.items else [], EventGroups(config, event), command)
    ensures HooksOf(config).value.Some? && !GroupsOf(HooksOf(config).value.value, event).List? ==>
              GroupsOf(Stripped(config, command), event) == GroupsOf(HooksOf(config).value.value, event)
  {
    StrippedGroups(config, command, event);
    hide GroupsKept;
    if HooksOf(config).value.Some? && GroupsOf(HooksOf(config).value.value, event).List? {
      StripKeepsUnowned(GroupsOf(HooksOf(config).value.value, event).items, command);
    }
  }

  // ----- When uninstalling restores the original -----

  /** Nothing of the program's, and none of the empty shells stripping tidies away. */
  ghost predicate TidyGroup(group: Json, command: string) {
    Handlers(group).Some? ==> !IsHollow(group) && forall h <- Handlers(group).value :: !IsOwned(h, command)
  }

  ghost predicate Tidy(config: Json, command: string) {
    && HooksOf(config).Ok?
    && (HooksOf(config).value.Some? ==>
          var hooks := HooksOf(config).value.value;
          hooks != map[] && forall e :: e in hooks && hooks[e].List? ==>
            hooks[e].items != [] && forall g <- hooks[e].items :: TidyGroup(g, command))
  }

  lemma {:induction false} UnownedUnchanged(handlers: seq<Json>, command: string)
    ensures |Unowned(handlers, command)| <= |handlers|
    ensures Unowned(handlers, command) == handlers <==> forall h <- handlers :: !IsOwned(h, command)
  {
    if handlers != [] {
      var front, last := handlers[..|handlers| - 1], handlers[|handlers| - 1];
      UnownedUnchanged(front, command);
      assert handlers == front + [last];
    }
  }

  lemma WithoutOwnedUnchanged(group: Json, command: string)
    ensures WithoutOwned(group, command) == group && !IsHollow(group) <==> TidyGroup(group, command)
  {
    if Handlers(group).Some? {
      UnownedUnchanged(Handlers(group).value, command);
      var w := WithoutOwned(group, command);
      if Unowned(Handlers(group).value, command) == Handlers(group).value {
        assert w.fields == group.fields;
      } else {
        assert Handlers(w) != Handlers(group);
      }
    }
  }

  lemma {:induction false} StripGroupsUnchanged(groups: seq<Json>, command: string)
    ensures |StripGroups(groups, command)| <= |groups|
    ensures StripGroups(groups, command) == groups <==> forall g <- groups :: TidyGroup(g, command)
  {
    if groups != [] {
      var front, last := groups[..|groups| - 1], groups[|groups| - 1];
      StripGroupsUnchanged(front, command);
      WithoutOwnedUnchanged(last, command);
      assert groups == front + [last];
      var w := WithoutOwned(last, command);
      if !IsHollow(w) {
        assert StripGroups(groups, command) == StripGroups(front, command) + [w];
        LastSplits(StripGroups(front, command), w, front, last);
      }
    }
  }

  lemma LastSplits<T>(a: seq<T>, x: T, b: seq<T>, y: T)
    ensures a + [x] == b + [y] <==> a == b && x == y
  {
    if a + [x] == b + [y] {
      assert |a + [x]| == |b + [y]|;
      assert (a + [x])[..|a|] == (b + [y])[..|b|];
      assert (a + [x])[|a|] == (b + [y])[|b|];
    }
  }

  /** Stripping changes nothing exactly when there is nothing to strip or tidy. */
  lemma StripUnchanged(config: Json, command: string)
    ensures Strip(config, command) == Ok(config) <==> Tidy(config, command)
  {
    if HooksOf(config).Ok? && HooksOf(config).value.Some? {
      var hooks := HooksOf(config).value.value;
      var stripped := StripHooks(hooks, command);
      forall e | e in hooks && hooks[e].List?
        ensures e in stripped && stripped[e] == hooks[e]
                <==> hooks[e].items != [] && forall g <- hooks[e].items :: TidyGroup(g, command)
      {
        StripGroupsUnchanged(hooks[e].items, command);
      }
      if Tidy(config, command) {
        assert stripped == hooks;
        assert SetHooks(config, hooks).fields == config.fields;
      } else if hooks == map[] {
        assert stripped == map[] && "hooks" !in SetHooks(config, stripped).fields;
      } else {
        assert stripped != hooks;
        HooksOfSet(config, stripped);
      }
    }
  }

  /** Install then uninstall restores the original exactly when it was tidy. */
  lemma InstallThenUninstall(config: Json, provider: Provider, command: string, enhanced: bool)
    requires Merge(config, provider, command, enhanced).1.None?
    ensures Strip(Merge(config, provider, command, enhanced).0, command) == Ok(config) <==> Tidy(config, command)
  {
    StripAfterMerge(config, provider, command, enhanced);
    StripUnchanged(config, command);
  }

  /** A configuration with empty hooks comes back without them. */
  lemma EmptyHooksAreTidied(provider: Provider, command: string, enhanced: bool)
    ensures var config := Object(map["hooks" := Object(map[])]);
            var merged := Merge(config, provider, command, enhanced);
            merged.1.None? && Strip(merged.0, command) == Ok(Object(map[])) != Ok(config)
  {
    var config := Object(map["hooks" := Object(map[])]);
    hide Merge, DesiredEvents;
    MergeSucceeds(config, provider, command, enhanced);
    StripAfterMerge(config, provider, command, enhanced);
    assert StripHooks(map[], command) == map[];
    assert config.fields - {"hooks"} == map[];
    assert "hooks" in config.fields && "hooks" !in Object(map[]).fields;
  }
}
