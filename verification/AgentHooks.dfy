/** `AgentHooks` of `crates/installer/src/agents.rs`: the Kimi hook list, and Grok's hook file
    with the shared-session preference it borrows. Files are taken as parsed documents. */
module AgentHooks {
  import opened Options

  // ----- Kimi -----

  datatype Toml = Str(s: string) | Int(i: int) | OtherToml(printed: string)

  type Hook = map<string, Toml>

  /** The `hooks` item of a document: an array of tables, empty when there is none, or
      something else. */
  datatype HooksItem = Tables(hooks: seq<Hook>) | NotTables

  datatype KimiFile = NoFile | NotToml | Document(item: HooksItem, rest: map<string, Toml>)

  const COMMON_EVENTS := ["SessionStart", "SessionEnd", "UserPromptSubmit", "PreToolUse", "PostToolUse",
                          "PostToolUseFailure", "Stop", "StopFailure", "Notification", "SubagentStart",
                          "SubagentStop", "PreCompact", "PostCompact"]
  const KIMI_EVENTS := COMMON_EVENTS + ["PermissionRequest", "PermissionResult", "SessionHeartbeat", "Interrupt"]

  predicate Has(h: Hook, key: string, v: Toml) {
    key in h && h[key] == v
  }

  predicate Owned(h: Hook, command: string) {
    Has(h, "command", Str(command))
  }

  /** An owned entry is no longer as it was written. */
  predicate Edited(h: Hook, command: string, events: seq<string>) {
    Owned(h, command)
    && (!("event" in h && h["event"].Str? && h["event"].s in events) || !Has(h, "timeout", Int(5)) || "matcher" in h)
  }

  function ManagedHook(event: string, command: string): Hook {
    map["event" := Str(event), "command" := Str(command), "timeout" := Int(5)]
  }

  function Managed(events: seq<string>, command: string): (r: seq<Hook>)
    ensures |r| == |events| && forall i :: 0 <= i < |r| ==> r[i] == ManagedHook(events[i], command)
  {
    seq(|events|, i requires 0 <= i < |events| => ManagedHook(events[i], command))
  }

  function Retained(hooks: seq<Hook>, command: string): seq<Hook> {
    if hooks == [] then []
    else
      var front, last := hooks[..|hooks| - 1], hooks[|hooks| - 1];
      Retained(front, command) + if Owned(last, command) then [] else [last]
  }

  predicate AnyEdited(hooks: seq<Hook>, command: string, events: seq<string>) {
    exists i :: 0 <= i < |hooks| && Edited(hooks[i], command, events)
  }

  /** The list an install or uninstall writes. */
  function ChangedHooks(hooks: seq<Hook>, command: string, events: seq<string>, install: bool): Option<seq<Hook>> {
    if AnyEdited(hooks, command, events) then None
    else Some(Retained(hooks, command) + if install then Managed(events, command) else [])
  }

  /** The document's hook list, if it can have one. */
  function HooksIn(file: KimiFile): Option<seq<Hook>> {
    match file
    case NoFile => Some([])
    case NotToml => None
    case Document(item, _) => if item.Tables? then Some(item.hooks) else None
  }

  function KimiChanged(file: KimiFile, command: string, install: bool): Option<KimiFile> {
    var hooks :- HooksIn(file);
    var changed :- ChangedHooks(hooks, command, KIMI_EVENTS, install);
    Some(Document(Tables(changed), if file.Document? then file.rest else map[]))
  }

  /** `installed` for Kimi. */
  predicate KimiInstalled(hooks: seq<Hook>, command: string, events: seq<string>) {
    forall e :: 0 <= e < |events| ==> Registered(hooks, events[e], command)
  }

  predicate Registered(hooks: seq<Hook>, event: string, command: string) {
    exists i :: 0 <= i < |hooks| && Registers(hooks[i], event, command)
  }

  predicate Registers(h: Hook, event: string, command: string) {
    Has(h, "event", Str(event)) && Owned(h, command) && Has(h, "timeout", Int(5))
  }

  method BuildHooks(hooks: seq<Hook>, command: string, events: seq<string>, install: bool)
    returns (changed: Option<seq<Hook>>)
    ensures changed == ChangedHooks(hooks, command, events, install)
  {
    var retained: seq<Hook> := [];
    for i := 0 to |hooks|
      invariant retained == Retained(hooks[..i], command)
      invariant !AnyEdited(hooks[..i], command, events)
    {
      var item := hooks[i];
      if Edited(item, command, events) {
        return None;
      }
      assert hooks[..i + 1][..i] == hooks[..i];
      if !Owned(item, command) {
        retained := retained + [item];
      }
    }
    assert hooks[..|hooks|] == hooks;
    ghost var before := retained;
    assert before == before + [];
    if install {
      for i := 0 to |events|
        invariant retained == before + Managed(events[..i], command)
      {
        assert Managed(events[..i + 1], command) == Managed(events[..i], command) + [ManagedHook(events[i], command)];
        retained := retained + [ManagedHook(events[i], command)];
      }
      assert events[..|events|] == events;
    }
    return Some(retained);
  }

  // ----- Grok -----

  /** The hook file: ours exactly, other JSON, or no JSON. */
  datatype GrokHook = NoHook | Definition | OtherJson | NotJson

  datatype Leader = Unset | Leader(on: bool) | NotBool

  /** The `cli` item of the configuration. */
  datatype Cli = NoCli | CliTable(leader: Leader, others: map<string, Toml>) | NotTable

  datatype GrokConfig = NoConfig | ConfigNotToml | Config(cli: Cli, rest: map<string, Toml>)

  /** `saved` is the preference put aside: none, or the value it had, if any. */
  datatype GrokDisk = GrokDisk(hook: GrokHook, config: GrokConfig, saved: Option<Option<bool>>, installed: Option<bool>)

  function CliOf(c: GrokConfig): Cli {
    if c.Config? then c.cli else NoCli
  }

  /** The preference in force, as far as it can be read. */
  function LeaderOf(c: GrokConfig): Leader {
    if CliOf(c).CliTable? then CliOf(c).leader else Unset
  }

  predicate Readable(c: GrokConfig) {
    !c.ConfigNotToml? && !CliOf(c).NotTable? && !LeaderOf(c).NotBool?
  }

  function Previous(c: GrokConfig): Option<bool> {
    if LeaderOf(c).Leader? then Some(LeaderOf(c).on) else None
  }

  function WithLeader(c: GrokConfig, leader: Leader): GrokConfig {
    var others := if CliOf(c).CliTable? then CliOf(c).others else map[];
    Config(CliTable(leader, others), if c.Config? then c.rest else map[])
  }

  /** `configure_grok_shared`. */
  function Shared(config: GrokConfig, saved: Option<Option<bool>>, install: bool): (GrokConfig, Option<Option<bool>>)
    requires Readable(config)
  {
    if install then
      (WithLeader(config, Leader(true)), if saved.None? then Some(Previous(config)) else saved)
    else if Previous(config) == Some(true) && saved.Some? then
      (WithLeader(config, if saved.value.Some? then Leader(saved.value.value) else Unset), None)
    else (config, saved)
  }

  datatype Outcome = Done | HookEdited | ConfigRefused

  /** A whole Grok change. The hook file is settled before the configuration is looked at. */
  function GrokChanged(d: GrokDisk, install: bool): (GrokDisk, Outcome) {
    if d.hook.OtherJson? || d.hook.NotJson? then (d, HookEdited)
    else
      var e := d.(hook := if install then Definition else NoHook);
      if !Readable(d.config) then (e, ConfigRefused)
      else
        var (config, saved) := Shared(d.config, d.saved, install);
        (e.(config := config, saved := saved, installed := Some(install)), Done)
  }

  // ----- The installer of both -----

  class AgentHooks {
    const kimiCommand: string
    var kimiFile: KimiFile
    var kimiInstalled: Option<bool>
    var grokHook: GrokHook
    var grokConfig: GrokConfig
    var grokSaved: Option<Option<bool>>
    var grokInstalled: Option<bool>

    ghost function Grok(): GrokDisk
      reads this
    {
      GrokDisk(grokHook, grokConfig, grokSaved, grokInstalled)
    }

    constructor (kimiCommand: string, kimiFile: KimiFile, grok: GrokDisk)
      ensures Grok() == grok && this.kimiFile == kimiFile && this.kimiCommand == kimiCommand
    {
      this.kimiCommand, this.kimiFile, kimiInstalled := kimiCommand, kimiFile, None;
      grokHook, grokConfig, grokSaved, grokInstalled := grok.hook, grok.config, grok.saved, grok.installed;
    }

    /** Refuses before any write, or writes the whole change. */
    method ChangeKimi(install: bool) returns (ok: bool)
      modifies `kimiFile, `kimiInstalled
      ensures var changed := KimiChanged(old(kimiFile), kimiCommand, install);
              && ok == changed.Some?
              && kimiFile == changed.GetOr(old(kimiFile))
              && kimiInstalled == if ok then Some(install) else old(kimiInstalled)
    {
      if kimiFile.NotToml? || (kimiFile.Document? && kimiFile.item.NotTables?) {
        return false;
      }
      var hooks := if kimiFile.Document? then kimiFile.item.hooks else [];
      var changed := BuildHooks(hooks, kimiCommand, KIMI_EVENTS, install);
      if changed.None? {
        return false;
      }
      kimiFile := Document(Tables(changed.value), if kimiFile.Document? then kimiFile.rest else map[]);
      kimiInstalled := Some(install);
      return true;
    }

    method ChangeGrok(install: bool) returns (outcome: Outcome)
      modifies `grokHook, `grokConfig, `grokSaved, `grokInstalled
      ensures (Grok(), outcome) == GrokChanged(old(Grok()), install)
    {
      if grokHook.OtherJson? || grokHook.NotJson? {
        return HookEdited;
      }
      grokHook := if install then Definition else NoHook;
      var ok := ConfigureGrokShared(install);
      if !ok {
        return ConfigRefused;
      }
      grokInstalled := Some(install);
      return Done;
    }

    method ConfigureGrokShared(install: bool) returns (ok: bool)
      modifies `grokConfig, `grokSaved
      ensures ok == old(Readable(grokConfig))
      ensures (grokConfig, grokSaved)
           == if ok then Shared(old(grokConfig), old(grokSaved), install) else old((grokConfig, grokSaved))
    {
      if grokConfig.ConfigNotToml? || CliOf(grokConfig).NotTable? || LeaderOf(grokConfig).NotBool? {
        return false;
      }
      var previous := Previous(grokConfig);
      if install {
        if grokSaved.None? {
          grokSaved := Some(previous);
        }
        grokConfig := WithLeader(grokConfig, Leader(true));
      } else if previous == Some(true) && grokSaved.Some? {
        grokConfig := WithLeader(grokConfig, if grokSaved.value.Some? then Leader(grokSaved.value.value) else Unset);
        grokSaved := None;
      }
      return true;
    }
  }

  // ----- Kimi properties -----

  lemma {:induction false} RetainedConcat(a: seq<Hook>, b: seq<Hook>, command: string)
    ensures Retained(a + b, command) == Retained(a, command) + Retained(b, command)
  {
    if b == [] {
      assert a + b == a;
    } else {
      var front := b[..|b| - 1];
      assert (a + b)[..|a + b| - 1] == a + front;
      RetainedConcat(a, front, command);
    }
  }

  lemma {:induction false} NoneRetained(hooks: seq<Hook>, command: string)
    requires forall i :: 0 <= i < |hooks| ==> Owned(hooks[i], command)
    ensures Retained(hooks, command) == []
  {
    if hooks != [] {
      NoneRetained(hooks[..|hooks| - 1], command);
    }
  }

  lemma {:induction false} AllRetained(hooks: seq<Hook>, command: string)
    requires forall i :: 0 <= i < |hooks| ==> !Owned(hooks[i], command)
    ensures Retained(hooks, command) == hooks
  {
    if hooks != [] {
      AllRetained(hooks[..|hooks| - 1], command);
    }
  }

  lemma {:induction false} RetainedAreForeign(hooks: seq<Hook>, command: string)
    ensures forall i :: 0 <= i < |Retained(hooks, command)| ==> !Owned(Retained(hooks, command)[i], command)
  {
    if hooks != [] {
      RetainedAreForeign(hooks[..|hooks| - 1], command);
    }
  }

  lemma ManagedIsOurs(event: string, command: string, events: seq<string>)
    requires event in events
    ensures var h := ManagedHook(event, command);
            Owned(h, command) && !Edited(h, command, events) && Registers(h, event, command)
  {
  }

  lemma ManagedAreOurs(command: string, events: seq<string>)
    ensures var m := Managed(events, command);
            && (forall i :: 0 <= i < |m| ==> Owned(m[i], command) && !Edited(m[i], command, events))
            && KimiInstalled(m, command, events) && Retained(m, command) == []
  {
    var m := Managed(events, command);
    forall i | 0 <= i < |m|
      ensures Owned(m[i], command) && !Edited(m[i], command, events) && Registers(m[i], events[i], command)
    {
      ManagedIsOurs(events[i], command, events);
    }
    assert forall e :: 0 <= e < |events| ==> Registers(m[e], events[e], command);
    NoneRetained(m, command);
  }

  /** What a change leaves: foreign entries in their order, nothing edited, and every event
      registered exactly when it was an install. */
  lemma ChangeResult(hooks: seq<Hook>, command: string, events: seq<string>, install: bool)
    requires ChangedHooks(hooks, command, events, install).Some? && events != []
    ensures var changed := ChangedHooks(hooks, command, events, install).value;
            && Retained(changed, command) == Retained(hooks, command)
            && !AnyEdited(changed, command, events)
            && (KimiInstalled(changed, command, events) <==> install)
  {
    var kept := Retained(hooks, command);
    var added := if install then Managed(events, command) else [];
    ManagedAreOurs(command, events);
    RetainedAreForeign(hooks, command);
    RetainedConcat(kept, added, command);
    AllRetained(kept, command);
    hide Owned, Edited, Registers, Retained, Managed, KimiInstalled, AnyEdited;
    assert kept + [] == kept;
    NothingEdited(kept, added, command, events);
    if install {
      InstalledByTail(kept, added, command, events);
    } else {
      ForeignInstallNothing(kept, command, events);
    }
  }

  lemma NothingEdited(kept: seq<Hook>, added: seq<Hook>, command: string, events: seq<string>)
    requires forall i :: 0 <= i < |kept| ==> !Owned(kept[i], command)
    requires forall i :: 0 <= i < |added| ==> !Edited(added[i], command, events)
    ensures !AnyEdited(kept + added, command, events)
  {
    ForeignRegistersNothing(command, events);
    hide Owned, Edited;
  }

  lemma InstalledByTail(kept: seq<Hook>, added: seq<Hook>, command: string, events: seq<string>)
    requires KimiInstalled(added, command, events)
    ensures KimiInstalled(kept + added, command, events)
  {
    var changed := kept + added;
    forall e | 0 <= e < |events|
      ensures Registered(changed, events[e], command)
    {
      assert Registered(added, events[e], command);
      var i :| 0 <= i < |added| && Registers(added[i], events[e], command);
      assert changed[|kept| + i] == added[i];
    }
  }

  lemma ForeignInstallNothing(kept: seq<Hook>, command: string, events: seq<string>)
    requires forall i :: 0 <= i < |kept| ==> !Owned(kept[i], command)
    requires events != []
    ensures !KimiInstalled(kept, command, events)
  {
    ForeignRegistersNothing(command, events);
    hide Owned, Registers;
    assert !Registered(kept, events[0], command);
  }

  lemma ForeignRegistersNothing(command: string, events: seq<string>)
    ensures forall h: Hook, e: string :: Registers(h, e, command) ==> Owned(h, command)
    ensures forall h: Hook :: Edited(h, command, events) ==> Owned(h, command)
  {
  }

  /** Installing again changes nothing, and an uninstall after any install leaves what an
      uninstall alone would: the original list, if nothing in it was ours. */
  lemma KimiRoundTrip(hooks: seq<Hook>, command: string, events: seq<string>)
    requires ChangedHooks(hooks, command, events, true).Some? && events != []
    ensures var installed := ChangedHooks(hooks, command, events, true).value;
            && ChangedHooks(installed, command, events, true) == Some(installed)
            && ChangedHooks(installed, command, events, false) == ChangedHooks(hooks, command, events, false)
            && (ChangedHooks(installed, command, events, false) == Some(hooks)
                <==> forall i :: 0 <= i < |hooks| ==> !Owned(hooks[i], command))
  {
    hide Owned, Edited, AnyEdited, Retained, Managed, KimiInstalled;
    ChangeResult(hooks, command, events, true);
    RetainedAreForeign(hooks, command);
    if forall i :: 0 <= i < |hooks| ==> !Owned(hooks[i], command) {
      AllRetained(hooks, command);
    }
    assert Retained(hooks, command) + [] == Retained(hooks, command);
  }

  /** The entry has all the fields the managed one of this event is written with. */
  ghost predicate Carries(h: Hook, event: string, command: string) {
    && "event" in h && h["event"] == Str(event) && "command" in h && h["command"] == Str(command)
    && "timeout" in h && h["timeout"] == Int(5)
  }

  /** A change is refused exactly for an entry with our command that does not carry all the fields of one
      of our events or has a matcher; and hooks are installed exactly when some entry carries each event's. */
  lemma EntriesMean(hooks: seq<Hook>, command: string, events: seq<string>, install: bool)
    ensures ChangedHooks(hooks, command, events, install).None?
            <==> exists h <- hooks ::
                   && "command" in h && h["command"] == Str(command)
                   && ((forall e <- events :: !Carries(h, e, command)) || "matcher" in h)
    ensures KimiInstalled(hooks, command, events) <==> forall e <- events :: exists h <- hooks :: Carries(h, e, command)
  {
    forall h | h in hooks
      ensures Edited(h, command, events)
              <==> && "command" in h && h["command"] == Str(command)
                   && ((forall e <- events :: !Carries(h, e, command)) || "matcher" in h)
    {
      EditedMeans(h, command, events);
    }
    forall e: string
      ensures Registered(hooks, e, command) <==> exists h <- hooks :: Carries(h, e, command)
    {
      RegisteredMeans(hooks, e, command);
    }
    hide Edited, Carries, Registered, Retained, Managed;
    InstalledMeans(hooks, command, events);
    if h :| h in hooks && Edited(h, command, events) {
      var i :| 0 <= i < |hooks| && hooks[i] == h;
      assert AnyEdited(hooks, command, events);
    }
  }

  lemma InstalledMeans(hooks: seq<Hook>, command: string, events: seq<string>)
    ensures KimiInstalled(hooks, command, events) <==> forall e <- events :: Registered(hooks, e, command)
  {
    hide Registered;
    assert forall k :: 0 <= k < |events| ==> events[k] in events;
    forall e | e in events && KimiInstalled(hooks, command, events)
      ensures Registered(hooks, e, command)
    {
      var k :| 0 <= k < |events| && events[k] == e;
    }
  }

  lemma EditedMeans(h: Hook, command: string, events: seq<string>)
    ensures Edited(h, command, events)
            <==> && "command" in h && h["command"] == Str(command)
                 && ((forall e <- events :: !Carries(h, e, command)) || "matcher" in h)
  {
    if Owned(h, command) && "event" in h && h["event"].Str? && h["event"].s in events && Has(h, "timeout", Int(5)) {
      assert Carries(h, h["event"].s, command);
    }
  }

  lemma RegisteredMeans(hooks: seq<Hook>, event: string, command: string)
    ensures Registered(hooks, event, command) <==> exists h <- hooks :: Carries(h, event, command)
  {
    if i :| 0 <= i < |hooks| && Registers(hooks[i], event, command) {
      assert Carries(hooks[i], event, command);
    }
    if h :| h in hooks && Carries(h, event, command) {
      var i :| 0 <= i < |hooks| && hooks[i] == h;
      assert Registers(hooks[i], event, command);
    }
  }

  ghost predicate AnyOwned(hooks: seq<Hook>, command: string) {
    exists i :: 0 <= i < |hooks| && Owned(hooks[i], command)
  }

  /** A change of the whole file is refused exactly for a file that is not TOML, a `hooks` item that
      is not an array of tables, or an owned entry that was edited. Otherwise installing twice is
      installing once, and an uninstall, right away or after any install, gives the original file
      exactly when there was one and nothing in its list was ours: where there was none, it leaves
      an empty document. */
  lemma KimiFileRoundTrip(file: KimiFile, command: string)
    ensures forall install :: KimiChanged(file, command, install).None?
                              <==> || file == NotToml
                                   || (file.Document? && file.item == NotTables)
                                   || (file.Document? && file.item.Tables?
                                       && AnyEdited(file.item.hooks, command, KIMI_EVENTS))
    ensures KimiChanged(file, command, true).Some? ==>
              var installed, removed := KimiChanged(file, command, true).value, KimiChanged(file, command, false);
              && KimiChanged(installed, command, true) == Some(installed)
              && KimiChanged(installed, command, false) == removed
              && (removed == Some(file) <==> file.Document? && !AnyOwned(HooksIn(file).value, command))
              && (file.NoFile? ==> removed == Some(Document(Tables([]), map[])))
  {
    assert |KIMI_EVENTS| > 0;
    hide KIMI_EVENTS, Owned, Edited, Retained, Managed, AnyEdited;
    if KimiChanged(file, command, true).Some? {
      var hooks := HooksIn(file).value;
      KimiRoundTrip(hooks, command, KIMI_EVENTS);
      if file.NoFile? {
        NothingRetained(command);
      }
    }
  }

  /** Kimi has 17 events, among them those at which it asks the user and hears the answer. */
  lemma KimiEvents()
    ensures |KIMI_EVENTS| == 17
    ensures "PermissionRequest" in KIMI_EVENTS && "PermissionResult" in KIMI_EVENTS && "Interrupt" in KIMI_EVENTS
  {
    assert KIMI_EVENTS[13] == "PermissionRequest" && KIMI_EVENTS[14] == "PermissionResult";
    assert KIMI_EVENTS[16] == "Interrupt";
  }

  lemma NothingRetained(command: string)
    ensures Retained([], command) + [] == []
  {
  }

  // ----- Grok properties -----

  function Installs(d: GrokDisk, n: nat): GrokDisk {
    if n == 0 then d else GrokChanged(Installs(d, n - 1), true).0
  }

  predicate Changeable(d: GrokDisk) {
    !Refused(d)
  }

  /** Further installs change nothing. */
  lemma {:induction false} InstallsAgree(d: GrokDisk, n: nat)
    requires n > 0 && Changeable(d)
    ensures Installs(d, n) == GrokChanged(d, true).0
  {
    if n > 1 {
      InstallsAgree(d, n - 1);
    } else {
      assert Installs(d, 0) == d;
    }
  }

  /** Any number of installs and one uninstall put the preference back exactly when none was
      saved before, or the one saved is the one in force; they then touch nothing but the
      table they needed, and leave nothing saved. */
  lemma {:induction false} GrokRoundTrip(d: GrokDisk, n: nat)
    requires n > 0 && Changeable(d)
    ensures var (after, outcome) := GrokChanged(Installs(d, n), false);
            && outcome == Done && after.hook == NoHook && after.saved.None? && after.installed == Some(false)
            && (Previous(after.config) == Previous(d.config) <==> d.saved.None? || d.saved.value == Previous(d.config))
            && (d.saved.None? ==> after.config == WithLeader(d.config, LeaderOf(d.config)))
            && (d.saved.None? ==> (after.config == d.config <==> CliOf(d.config).CliTable?))
  {
    InstallsAgree(d, n);
  }

  /** A preference changed from outside is respected once: the saved value stays behind, and
      the next install and uninstall put it back over the user's own. */
  lemma StalePreference()
    ensures var d := GrokDisk(NoHook, Config(CliTable(Unset, map[]), map[]), None, None);
            var edited := Installs(d, 1).(config := WithLeader(d.config, Leader(false)));
            var removed := GrokChanged(edited, false).0;
            var again := GrokChanged(Installs(removed, 1), false).0;
            && Previous(removed.config) == Some(false) && removed.saved == Some(None)
            && Previous(again.config) == None
  {
    var d := GrokDisk(NoHook, Config(CliTable(Unset, map[]), map[]), None, None);
    var edited := Installs(d, 1).(config := WithLeader(d.config, Leader(false)));
    InstallsAgree(d, 1);
    InstallsAgree(GrokChanged(edited, false).0, 1);
  }

  /** An uninstall writes the configuration only over its own value: `true`, put there by an
      install that saved what was there before. */
  lemma UninstallTouchesOnlyOwn(d: GrokDisk)
    requires Changeable(d)
    ensures GrokChanged(d, false).0.config != d.config ==> Previous(d.config) == Some(true) && d.saved.Some?
    ensures d.saved.None? || Previous(d.config) != Some(true) ==>
              GrokChanged(d, false).0.config == d.config && GrokChanged(d, false).0.saved == d.saved
  {
  }

  /** A change of this disk is refused: the hook file was edited, or the preference is unreadable. */
  predicate Refused(d: GrokDisk) {
    || d.hook.OtherJson? || d.hook.NotJson? || d.config.ConfigNotToml?
    || (d.config.Config? && (d.config.cli.NotTable? || (d.config.cli.CliTable? && d.config.cli.leader.NotBool?)))
  }

  /** When a change is refused, and what a refused one has already done: the hook file goes first, so
      nothing is changed exactly when that file is what was refused, or was as the change wants it. */
  lemma RefusalIsCleanOrLate(d: GrokDisk, install: bool)
    ensures GrokChanged(d, install).1 != Done <==> Refused(d)
    ensures Refused(d) ==>
              && GrokChanged(d, install).0 == d.(hook := GrokChanged(d, install).0.hook)
              && (GrokChanged(d, install).0 == d
                  <==> d.hook.OtherJson? || d.hook.NotJson? || d.hook == (if install then Definition else NoHook))
  {
  }

  /** An install that a `cli` value refuses has put the hook file in place. */
  lemma LateRefusal()
    ensures var d := GrokDisk(NoHook, Config(NotTable, map[]), None, None);
            GrokChanged(d, true) == (d.(hook := Definition), ConfigRefused)
  {
  }
}
