/** The installer's operations over its files (`crates/installer/src/lib.rs`): installing,
    uninstalling and repairing provider hooks, and the Claude status line, in any order and
    between any edits the user makes to the provider configurations. */
module InstallerRuns {
  import opened Options
  import opened JsonValues
  import opened HookConfig
  import opened HookAlgebra
  import opened HookInstall
  import Quoting

  const STATUS_LINE := "statusLine"
  const ORIGINAL_STATUS_LINE := "_actRealmOriginalStatusLine"

  datatype Intent = Untouched | Installed | Uninstalled

  /** A provider configuration: absent, refused (a link, oversized, not JSON), or parsed. */
  datatype ConfigFile = Missing | Unreadable | Parsed(value: Json)

  /** Where the installer puts things, as the configuration names them. */
  datatype Paths = Paths(binary: string, helper: string)

  datatype Disk = Disk(claude: ConfigFile, codex: ConfigFile, claudeIntent: Intent, codexIntent: Intent,
                       stableBinary: bool, helper: bool, delegate: bool)

  /** What an installation depends on outside the files above: the source binary is usable,
      and `config.toml` defines Codex hooks inline. */
  datatype Conditions = Conditions(sourceUsable: bool, inlineHooks: bool)

  function ConfigOf(d: Disk, p: Provider): ConfigFile {
    if p == Claude then d.claude else d.codex
  }

  function WithConfig(d: Disk, p: Provider, file: ConfigFile): Disk {
    if p == Claude then d.(claude := file) else d.(codex := file)
  }

  function IntentOf(d: Disk, p: Provider): Intent {
    if p == Claude then d.claudeIntent else d.codexIntent
  }

  function WithIntent(d: Disk, p: Provider, intent: Intent): Disk {
    if p == Claude then d.(claudeIntent := intent) else d.(codexIntent := intent)
  }

  predicate AnyInstalled(d: Disk) {
    d.claudeIntent == Installed || d.codexIntent == Installed
  }

  function CommandOf(paths: Paths, p: Provider): string {
    Quoting.HookCommand(paths.binary, if p == Claude then "claude" else "codex")
  }

  /** `load_provider_json`: the object a file holds, an empty one if it is missing, None if refused. */
  function Load(file: ConfigFile): (value: Option<Json>)
    ensures value.Some? ==> value.value.Object?
  {
    match file
    case Missing => Some(Object(map[]))
    case Unreadable => None
    case Parsed(value) => if value.Object? then Some(value) else None
  }

  function Save(file: ConfigFile, original: Json, updated: Json): ConfigFile {
    if updated != original then Parsed(updated) else file
  }

  // ----- Provider hooks -----

  /** `install_locked`. */
  function InstallHooks(d: Disk, paths: Paths, p: Provider, enhanced: bool, c: Conditions): Disk {
    var original := Load(ConfigOf(d, p));
    if !c.sourceUsable || (p == Codex && c.inlineHooks) || original.None? then d
    else
      var (updated, error) := Merge(original.value, p, CommandOf(paths, p), enhanced);
      if error.Some? then d
      else WithIntent(WithConfig(d, p, Save(ConfigOf(d, p), original.value, updated)), p, Installed)
           .(stableBinary := true)
  }

  function UninstallHooks(d: Disk, paths: Paths, p: Provider): Disk {
    var original := Load(ConfigOf(d, p));
    if original.None? || Strip(original.value, CommandOf(paths, p)).Err? then d
    else
      var updated := Strip(original.value, CommandOf(paths, p)).value;
      var file := if ConfigOf(d, p).Missing? then Missing else Save(ConfigOf(d, p), original.value, updated);
      var next := WithIntent(WithConfig(d, p, file), p, Uninstalled);
      if AnyInstalled(next) || StatusLineInstalled(next, paths) then next else next.(stableBinary := false)
  }

  function RepairHooks(d: Disk, paths: Paths, p: Provider, enhanced: bool, c: Conditions): Disk {
    if IntentOf(d, p) == Installed && ConfigOf(d, p).Parsed? && ConfigOf(d, p).value.Object?
       && Complete(ConfigOf(d, p).value, p, CommandOf(paths, p), enhanced)
    then InstallHooks(d, paths, p, enhanced, c) else d
  }

  // ----- The status line -----

  function ManagedStatusLine(paths: Paths): Json {
    Object(map["type" := Text("command"), "command" := Text(Quoting.ShellQuote(paths.helper))])
  }

  /** `inspect_claude_statusline`, whether it reports Installed. */
  predicate StatusLineInstalled(d: Disk, paths: Paths) {
    && d.claude.Parsed? && d.claude.value.Get(STATUS_LINE) == Some(ManagedStatusLine(paths))
    && d.helper && d.stableBinary
    && (d.claude.value.Get(ORIGINAL_STATUS_LINE).Some? ==> d.delegate)
  }

  function InstallStatusLine(d: Disk, paths: Paths, c: Conditions): Disk {
    var original := Load(d.claude);
    if !c.sourceUsable || original.None? then d
    else
      var current := original.value.Get(STATUS_LINE);
      if current.Some? && current.value != ManagedStatusLine(paths) then d
      else
        var updated := Object(original.value.fields[STATUS_LINE := ManagedStatusLine(paths)]);
        d.(claude := Save(d.claude, original.value, updated), stableBinary := true, helper := true)
  }

  predicate IsSpace(c: char) {
    c == ' ' || '\t' <= c <= '\r'
  }

  /** A status line with a command that is not blank can be wrapped. */
  predicate Wrappable(current: Option<Json>, paths: Paths) {
    current.Some? && current.value != ManagedStatusLine(paths)
    && var command := current.value.Get("command");
       command.Some? && command.value.Text?
       && exists i :: 0 <= i < |command.value.s| && !IsSpace(command.value.s[i])
  }

  function WrapStatusLine(d: Disk, paths: Paths, c: Conditions): Disk {
    var original := Load(d.claude);
    if !c.sourceUsable || original.None? then d
    else
      var current := original.value.Get(STATUS_LINE);
      if !Wrappable(current, paths) then d
      else
        var updated := Object(original.value.fields[ORIGINAL_STATUS_LINE := current.value]
                                                   [STATUS_LINE := ManagedStatusLine(paths)]);
        d.(claude := Save(d.claude, original.value, updated), stableBinary := true, helper := true, delegate := true)
  }

  /** The settings `uninstall_claude_statusline` leaves where the status line is ours. */
  function RestoredStatusLine(fields: map<string, Json>): map<string, Json> {
    if ORIGINAL_STATUS_LINE in fields then
      (fields - {ORIGINAL_STATUS_LINE})[STATUS_LINE := fields[ORIGINAL_STATUS_LINE]]
    else fields - {STATUS_LINE}
  }

  function UninstallStatusLine(d: Disk, paths: Paths): Disk {
    var original := Load(d.claude);
    if original.None? || original.value.Get(STATUS_LINE) != Some(ManagedStatusLine(paths)) then d
    else
      d.(claude := Save(d.claude, original.value, Object(RestoredStatusLine(original.value.fields))),
         helper := false, delegate := false, stableBinary := d.stableBinary && AnyInstalled(d))
  }

  // ----- The installer -----

  class Installer {
    const paths: Paths
    var claudeSettings: ConfigFile
    var codexHooks: ConfigFile
    var claudeIntent: Intent
    var codexIntent: Intent
    var stableBinary: bool
    var statuslineHelper: bool
    var statuslineDelegate: bool

    ghost function View(): Disk
      reads this
    {
      Disk(claudeSettings, codexHooks, claudeIntent, codexIntent, stableBinary, statuslineHelper, statuslineDelegate)
    }

    constructor (paths: Paths, claude: ConfigFile, codex: ConfigFile)
      ensures this.paths == paths && View() == Disk(claude, codex, Untouched, Untouched, false, false, false)
    {
      this.paths := paths;
      claudeSettings, codexHooks := claude, codex;
      claudeIntent, codexIntent := Untouched, Untouched;
      stableBinary, statuslineHelper, statuslineDelegate := false, false, false;
    }

    method WriteConfig(p: Provider, file: ConfigFile)
      modifies this
      ensures View() == WithConfig(old(View()), p, file)
    {
      if p == Claude {
        claudeSettings := file;
      } else {
        codexHooks := file;
      }
    }

    method SetIntent(p: Provider, intent: Intent)
      modifies this
      ensures View() == WithIntent(old(View()), p, intent)
    {
      if p == Claude {
        claudeIntent := intent;
      } else {
        codexIntent := intent;
      }
    }

    method Install(p: Provider, enhanced: bool, c: Conditions)
      modifies this
      ensures View() == InstallHooks(old(View()), paths, p, enhanced, c)
    {
      if !c.sourceUsable || (p == Codex && c.inlineHooks) {
        return;
      }
      var file := if p == Claude then claudeSettings else codexHooks;
      var original := Load(file);
      if original.None? {
        return;
      }
      var tree := new HookTree(original.value);
      var error := tree.MergeProviderHooks(p, CommandOf(paths, p), enhanced);
      if error.Some? {
        return;
      }
      stableBinary := true;
      if tree.root != original.value {
        WriteConfig(p, Parsed(tree.root));
      }
      SetIntent(p, Installed);
    }

    method Uninstall(p: Provider)
      modifies this
      ensures View() == UninstallHooks(old(View()), paths, p)
    {
      var file := if p == Claude then claudeSettings else codexHooks;
      var original := Load(file);
      if original.None? {
        return;
      }
      var tree := new HookTree(original.value);
      var error := tree.StripOwnedHooks(CommandOf(paths, p));
      if error.Some? {
        return;
      }
      if !file.Missing? && tree.root != original.value {
        WriteConfig(p, Parsed(tree.root));
      }
      SetIntent(p, Uninstalled);
      var status := claudeSettings.Parsed? && claudeSettings.value.Get(STATUS_LINE) == Some(ManagedStatusLine(paths))
                    && statuslineHelper && stableBinary
                    && (claudeSettings.value.Get(ORIGINAL_STATUS_LINE).None? || statuslineDelegate);
      if claudeIntent != Installed && codexIntent != Installed && !status {
        stableBinary := false;
      }
    }

    method Repair(p: Provider, enhanced: bool, c: Conditions)
      modifies this
      ensures View() == RepairHooks(old(View()), paths, p, enhanced, c)
    {
      var intent := if p == Claude then claudeIntent else codexIntent;
      if intent != Installed {
        return;
      }
      var file := if p == Claude then claudeSettings else codexHooks;
      if !file.Parsed? || !file.value.Object? || !Complete(file.value, p, CommandOf(paths, p), enhanced) {
        return;
      }
      Install(p, enhanced, c);
    }

    method InstallClaudeStatusline(c: Conditions)
      modifies this
      ensures View() == InstallStatusLine(old(View()), paths, c)
    {
      var original := Load(claudeSettings);
      if !c.sourceUsable || original.None? {
        return;
      }
      var current := original.value.Get(STATUS_LINE);
      if current.Some? && current.value != ManagedStatusLine(paths) {
        return;
      }
      var updated := Object(original.value.fields[STATUS_LINE := ManagedStatusLine(paths)]);
      stableBinary := true;
      statuslineHelper := true;
      if updated != original.value {
        claudeSettings := Parsed(updated);
      }
    }

    method InstallClaudeStatuslineWrapper(c: Conditions)
      modifies this
      ensures View() == WrapStatusLine(old(View()), paths, c)
    {
      var original := Load(claudeSettings);
      if !c.sourceUsable || original.None? {
        return;
      }
      var current := original.value.Get(STATUS_LINE);
      if !Wrappable(current, paths) {
        return;
      }
      var updated := Object(original.value.fields[ORIGINAL_STATUS_LINE := current.value]
                                                 [STATUS_LINE := ManagedStatusLine(paths)]);
      stableBinary := true;
      statuslineDelegate := true;
      statuslineHelper := true;
      if updated != original.value {
        claudeSettings := Parsed(updated);
      }
    }

    method UninstallClaudeStatusline()
      modifies this
      ensures View() == UninstallStatusLine(old(View()), paths)
    {
      var original := Load(claudeSettings);
      if original.None? || original.value.Get(STATUS_LINE) != Some(ManagedStatusLine(paths)) {
        return;
      }
      var updated := Object(RestoredStatusLine(original.value.fields));
      if updated != original.value {
        claudeSettings := Parsed(updated);
      }
      statuslineHelper := false;
      statuslineDelegate := false;
      if claudeIntent != Installed && codexIntent != Installed {
        stableBinary := false;
      }
    }
  }

  // ----- What the entries say -----

  /** A shell runs a provider's hook command as the binary with that provider's arguments, and our status
      line as the helper alone. */
  lemma EntriesRun(paths: Paths)
    requires paths.binary != "" && paths.helper != ""
    ensures Quoting.Words(CommandOf(paths, Claude)) == Some([paths.binary, "hook", "--provider", "claude"])
    ensures Quoting.Words(CommandOf(paths, Codex)) == Some([paths.binary, "hook", "--provider", "codex"])
    ensures var command := ManagedStatusLine(paths).Get("command");
            && ManagedStatusLine(paths).Get("type") == Some(Text("command"))
            && command.Some? && command.value.Text? && Quoting.Words(command.value.s) == Some([paths.helper])
  {
    Quoting.HookCommandRuns(paths.binary, "claude");
    Quoting.HookCommandRuns(paths.binary, "codex");
    Quoting.QuotedIsOneWord(paths.helper);
    assert "type"[0] != "command"[0];
    hide Quoting.Words, Quoting.HookCommand, Quoting.ShellQuote;
  }

  /** A status line is wrapped exactly when it is not ours and its command says something: it has a
      character that is no white space of ASCII. */
  lemma WrappableMeans(current: Json, paths: Paths)
    ensures Wrappable(Some(current), paths)
            <==> && current != ManagedStatusLine(paths)
                 && exists command: string, c ::
                      current.Get("command") == Some(Text(command)) && c in command
                      && c !in {' ', '\t', '\n', 0x0b as char, 0x0c as char, '\r'}
  {
    if exists command: string, c ::
         current.Get("command") == Some(Text(command)) && c in command
         && c !in {' ', '\t', '\n', 0x0b as char, 0x0c as char, '\r'} {
      var s := current.Get("command").value.s;
      var c :| c in s && c !in {' ', '\t', '\n', 0x0b as char, 0x0c as char, '\r'};
      var i :| 0 <= i < |s| && s[i] == c;
      assert !IsSpace(s[i]);
    }
    if Wrappable(Some(current), paths) {
      var s := current.Get("command").value.s;
      var i :| 0 <= i < |s| && !IsSpace(s[i]);
      assert s[i] in s && s[i] !in {' ', '\t', '\n', 0x0b as char, 0x0c as char, '\r'};
    }
  }

  // ----- Runs -----

  datatype Operation =
    | Install(p: Provider, enhanced: bool, c: Conditions)
    | Uninstall(p: Provider)
    | Repair(p: Provider, enhanced: bool, c: Conditions)
    | StatusLine(c: Conditions)
    | WrappedStatusLine(c: Conditions)
    | NoStatusLine
    | UserEdit(p: Provider, file: ConfigFile)

  function Apply(d: Disk, paths: Paths, op: Operation): Disk {
    match op
    case Install(p, enhanced, c) => InstallHooks(d, paths, p, enhanced, c)
    case Uninstall(p) => UninstallHooks(d, paths, p)
    case Repair(p, enhanced, c) => RepairHooks(d, paths, p, enhanced, c)
    case StatusLine(c) => InstallStatusLine(d, paths, c)
    case WrappedStatusLine(c) => WrapStatusLine(d, paths, c)
    case NoStatusLine => UninstallStatusLine(d, paths)
    case UserEdit(p, file) => WithConfig(d, p, file)
  }

  function Run(d: Disk, paths: Paths, ops: seq<Operation>): Disk {
    if ops == [] then d else Apply(Run(d, paths, ops[..|ops| - 1]), paths, ops[|ops| - 1])
  }

  function Fresh(claude: ConfigFile, codex: ConfigFile): Disk {
    Disk(claude, codex, Untouched, Untouched, false, false, false)
  }

  /** A provider that is meant to be installed has its binary. */
  predicate BinaryServed(d: Disk) {
    AnyInstalled(d) ==> d.stableBinary
  }

  /** In every run, with any edits of the provider configurations in between. */
  lemma {:induction false} BinaryAlwaysServed(claude: ConfigFile, codex: ConfigFile, paths: Paths, ops: seq<Operation>)
    ensures BinaryServed(Run(Fresh(claude, codex), paths, ops))
  {
    if ops != [] {
      BinaryAlwaysServed(claude, codex, paths, ops[..|ops| - 1]);
      hide Merge, Strip, Complete;
      assert BinaryServed(Apply(Run(Fresh(claude, codex), paths, ops[..|ops| - 1]), paths, ops[|ops| - 1]));
    }
  }

  lemma MergeKeepsField(config: Json, p: Provider, command: string, enhanced: bool, key: string)
    requires key != "hooks" && config.Object?
    ensures Merge(config, p, command, enhanced).1.None? ==>
              Merge(config, p, command, enhanced).0.Get(key) == config.Get(key)
    ensures Strip(config, command).Ok? ==> Strip(config, command).value.Get(key) == config.Get(key)
  {
    hide Merge, Strip;
    if Merge(config, p, command, enhanced).1.None? {
      MergeShape(config, p, command, enhanced);
      SameKey(Merge(config, p, command, enhanced).0, config, key);
    }
    if Strip(config, command).Ok? {
      StripHasStripped(config, command);
      SameKey(Strip(config, command).value, config, key);
    }
  }

  lemma SameKey(a: Json, b: Json, key: string)
    requires a.Object? && b.Object? && key != "hooks"
    requires a.fields - {"hooks"} == b.fields - {"hooks"}
    ensures a.Get(key) == b.Get(key)
  {
    assert key in a.fields <==> key in a.fields - {"hooks"};
    assert key in b.fields <==> key in b.fields - {"hooks"};
    assert key in a.fields ==> a.fields[key] == (a.fields - {"hooks"})[key];
    assert key in b.fields ==> b.fields[key] == (b.fields - {"hooks"})[key];
  }

  /** No operation on provider hooks breaks an installed status line. */
  lemma HooksKeepStatusLine(d: Disk, paths: Paths, op: Operation)
    requires op.Install? || op.Uninstall? || op.Repair?
    requires StatusLineInstalled(d, paths)
    ensures StatusLineInstalled(Apply(d, paths, op), paths)
  {
    hide Merge, Strip, Complete;
    var original := Load(ConfigOf(d, op.p));
    if original.Some? {
      var enhanced := if op.Uninstall? then false else op.enhanced;
      MergeKeepsField(original.value, op.p, CommandOf(paths, op.p), enhanced, STATUS_LINE);
      MergeKeepsField(original.value, op.p, CommandOf(paths, op.p), enhanced, ORIGINAL_STATUS_LINE);
    }
  }

  /** Repair adds nothing the user has removed: an event with an owned handler afterwards had
      one before. */
  lemma RepairAddsNoEvent(d: Disk, paths: Paths, p: Provider, enhanced: bool, c: Conditions, event: string)
    requires var after := ConfigOf(RepairHooks(d, paths, p, enhanced, c), p);
             after.Parsed? && OwnedAt(after.value, CommandOf(paths, p), event)
    ensures var before := ConfigOf(d, p);
            before.Parsed? && OwnedAt(before.value, CommandOf(paths, p), event)
  {
    hide Merge, OwnedAt, DesiredEvents;
    var before := ConfigOf(d, p);
    var after := RepairHooks(d, paths, p, enhanced, c);
    if ConfigOf(after, p) != before {
      MergeOwnsDesired(before.value, p, CommandOf(paths, p), enhanced, event);
    }
  }

  predicate InstallSucceeds(d: Disk, paths: Paths, p: Provider, enhanced: bool, c: Conditions) {
    c.sourceUsable && !(p == Codex && c.inlineHooks) && Load(ConfigOf(d, p)).Some?
    && Merge(Load(ConfigOf(d, p)).value, p, CommandOf(paths, p), enhanced).1.None?
  }

  /** A successful install leaves the merged configuration on disk. */
  lemma InstallLeaves(d: Disk, paths: Paths, p: Provider, enhanced: bool, c: Conditions)
    requires InstallSucceeds(d, paths, p, enhanced, c)
    ensures var merged := Merge(Load(ConfigOf(d, p)).value, p, CommandOf(paths, p), enhanced).0;
            && merged.Object? && Exact(merged, p, CommandOf(paths, p), enhanced)
            && InstallHooks(d, paths, p, enhanced, c)
            == WithIntent(WithConfig(d, p, Parsed(merged)), p, Installed).(stableBinary := true)
  {
    var original, command := Load(ConfigOf(d, p)).value, CommandOf(paths, p);
    MergeInstallsExactly(original, p, command, enhanced);
    ObjectStays(original, p, command, enhanced);
    NotEmpty(Merge(original, p, command, enhanced).0, p, command, enhanced);
    SaveHolds(ConfigOf(d, p), Merge(original, p, command, enhanced).0);
    hide Merge, Exact, CommandOf, Load, Save;
  }

  lemma SaveHolds(file: ConfigFile, updated: Json)
    requires Load(file).Some? && updated != Object(map[])
    ensures Save(file, Load(file).value, updated) == Parsed(updated)
  {
  }

  lemma NotEmpty(config: Json, p: Provider, command: string, enhanced: bool)
    requires Exact(config, p, command, enhanced)
    ensures config != Object(map[])
  {
    hide DesiredEvents, Complete, Locations, ManagedGroup;
  }

  /** Right after an install everything is in place: the exact check passes, repair recognises
      the installation and has nothing to change, and so has another install. */
  lemma InstallSettles(d: Disk, paths: Paths, p: Provider, enhanced: bool, c: Conditions, later: Conditions)
    requires InstallSucceeds(d, paths, p, enhanced, c)
    ensures var after := InstallHooks(d, paths, p, enhanced, c);
            && IntentOf(after, p) == Installed && after.stableBinary && ConfigOf(after, p).Parsed?
            && Exact(ConfigOf(after, p).value, p, CommandOf(paths, p), enhanced)
            && RepairHooks(after, paths, p, enhanced, later) == after
            && InstallHooks(after, paths, p, enhanced, later) == after
  {
    InstallLeaves(d, paths, p, enhanced, c);
    MergeIdempotent(Load(ConfigOf(d, p)).value, p, CommandOf(paths, p), enhanced);
    var after := InstallHooks(d, paths, p, enhanced, c);
    hide Merge, Exact, Complete, CommandOf;
    AgainIsNothing(after, paths, p, enhanced, later);
  }

  lemma AgainIsNothing(d: Disk, paths: Paths, p: Provider, enhanced: bool, c: Conditions)
    requires ConfigOf(d, p).Parsed? && ConfigOf(d, p).value.Object? && IntentOf(d, p) == Installed && d.stableBinary
    requires Merge(ConfigOf(d, p).value, p, CommandOf(paths, p), enhanced) == (ConfigOf(d, p).value, None)
    ensures InstallHooks(d, paths, p, enhanced, c) == d && RepairHooks(d, paths, p, enhanced, c) == d
  {
    hide Merge, Complete, CommandOf;
  }

  // ----- What each operation does -----

  /** The settings show our status line. */
  predicate ShowsOurs(d: Disk, paths: Paths) {
    d.claude.Parsed? && d.claude.value.Get("statusLine") == Some(ManagedStatusLine(paths))
  }

  /** An install succeeds exactly with a usable source binary, without inline hooks of Codex, and on a
      configuration that can be merged: it then leaves the merged one, the intent and the binary.
      Otherwise nothing changes. */
  lemma InstallMeans(d: Disk, paths: Paths, p: Provider, enhanced: bool, c: Conditions)
    ensures var file, after := ConfigOf(d, p), Apply(d, paths, Install(p, enhanced, c));
            if && c.sourceUsable && !(p == Codex && c.inlineHooks)
               && (file.Missing? || (file.Parsed? && Mergeable(file.value, p, enhanced)))
            then
              var original := if file.Missing? then Object(map[]) else file.value;
              && ConfigOf(after, p) == Parsed(Merge(original, p, CommandOf(paths, p), enhanced).0)
              && after == WithIntent(WithConfig(d, p, ConfigOf(after, p)), p, Installed).(stableBinary := true)
            else after == d
  {
    var file := ConfigOf(d, p);
    if Load(file).Some? {
      MergeSucceeds(Load(file).value, p, CommandOf(paths, p), enhanced);
      if InstallSucceeds(d, paths, p, enhanced, c) {
        InstallLeaves(d, paths, p, enhanced, c);
      }
    }
    hide Merge, Exact, CommandOf, DesiredEvents;
  }

  /** An uninstall succeeds exactly where there is no configuration or one that is an object, with hooks
      that are one or absent: it then leaves it stripped, or missing, and the intent, and the binary only
      for the other provider or a status line of ours that works. Otherwise nothing changes. */
  lemma UninstallMeans(d: Disk, paths: Paths, p: Provider)
    ensures var file, after := ConfigOf(d, p), Apply(d, paths, Uninstall(p));
            var other := if p == Claude then d.codexIntent else d.claudeIntent;
            if file.Missing? || (file.Parsed? && HooksOf(file.value).Ok?) then
              && ConfigOf(after, p) == (if file.Missing? then Missing
                                        else Parsed(Strip(file.value, CommandOf(paths, p)).value))
              && after == WithIntent(WithConfig(d, p, ConfigOf(after, p)), p, Uninstalled)
                          .(stableBinary := after.stableBinary)
              && (after.stableBinary <==>
                    && d.stableBinary
                    && (other == Installed
                        || (ShowsOurs(after, paths) && d.helper
                            && (after.claude.value.Get("_actRealmOriginalStatusLine").Some? ==> d.delegate))))
            else after == d
  {
    hide StripHooks, CommandOf, ManagedStatusLine;
  }

  /** Two settings differ in the status line and the one saved at most. */
  ghost predicate OthersSame(a: Json, b: Json) {
    forall key :: key != "statusLine" && key != "_actRealmOriginalStatusLine" ==> a.Get(key) == b.Get(key)
  }

  /** The status line is installed exactly with a usable source binary, where the settings can be read and
      show none or ours already: a foreign one is never replaced. Nothing else of the settings changes. */
  lemma StatusLineMeans(d: Disk, paths: Paths, c: Conditions)
    ensures var original, after := Load(d.claude), Apply(d, paths, StatusLine(c));
            if && c.sourceUsable && original.Some?
               && (original.value.Get("statusLine").None? || ShowsOurs(d, paths))
            then
              && ShowsOurs(after, paths) && OthersSame(after.claude.value, original.value)
              && after.claude.value.Get(ORIGINAL_STATUS_LINE) == original.value.Get(ORIGINAL_STATUS_LINE)
              && after == d.(claude := after.claude, helper := true, stableBinary := true)
            else after == d
  {
    KeysDiffer();
    hide ManagedStatusLine;
  }

  lemma KeysDiffer()
    ensures STATUS_LINE != ORIGINAL_STATUS_LINE
  {
    assert STATUS_LINE[0] == 's' && ORIGINAL_STATUS_LINE[0] == '_';
  }

  /** A foreign status line is wrapped exactly with a usable source binary, where it can be: it is saved,
      ours is shown, and nothing else of the settings changes. */
  lemma WrapMeans(d: Disk, paths: Paths, c: Conditions)
    ensures var original, after := Load(d.claude), Apply(d, paths, WrappedStatusLine(c));
            if c.sourceUsable && original.Some? && Wrappable(original.value.Get("statusLine"), paths) then
              && ShowsOurs(after, paths) && OthersSame(after.claude.value, original.value)
              && after.claude.value.Get("_actRealmOriginalStatusLine") == original.value.Get("statusLine")
              && after == d.(claude := after.claude, helper := true, delegate := true, stableBinary := true)
            else after == d
  {
    KeysDiffer();
    var current := if d.claude.Parsed? then d.claude.value.Get(STATUS_LINE) else None;
    assert Wrappable(current, paths) ==> current.Some? && current.value != ManagedStatusLine(paths);
    hide ManagedStatusLine, Wrappable;
  }

  /** Our status line is removed exactly where the settings show it: the saved one is put back in its
      place, its files go, the binary with them unless a provider is installed, and nothing else of the
      settings changes. */
  lemma NoStatusLineMeans(d: Disk, paths: Paths)
    ensures var after := Apply(d, paths, NoStatusLine);
            if ShowsOurs(d, paths) then
              && after.claude.Parsed? && OthersSame(after.claude.value, d.claude.value)
              && after.claude.value.Get("statusLine") == d.claude.value.Get("_actRealmOriginalStatusLine")
              && after.claude.value.Get("_actRealmOriginalStatusLine") == None
              && after == d.(claude := after.claude, helper := false, delegate := false,
                             stableBinary := d.stableBinary && AnyInstalled(d))
            else after == d
  {
    KeysDiffer();
    hide ManagedStatusLine;
  }

  // ----- What repair repairs -----

  /** What was complete can be merged. */
  lemma CompleteMerges(config: Json, p: Provider, command: string, enhanced: bool)
    requires config.Object? && forall event <- DesiredEvents(p, enhanced) :: OwnedAt(config, command, event)
    ensures Merge(config, p, command, enhanced).1.None?
  {
    hide DesiredEvents, Merge, HasOwned;
    SomeEventDesired(p, enhanced);
    MergeSucceeds(config, p, command, enhanced);
    assert OwnedAt(config, command, DesiredEvents(p, enhanced)[0]);
  }

  lemma SomeEventDesired(p: Provider, enhanced: bool)
    ensures DesiredEvents(p, enhanced) != []
  {
  }

  /** Repair acts exactly where the provider is meant to be installed, an install is possible and every
      desired event still has a handler of ours: it then leaves the merged configuration, which passes
      the exact check, with the binary there, and nothing else changed. Otherwise nothing changes. */
  lemma RepairMeans(d: Disk, paths: Paths, p: Provider, enhanced: bool, c: Conditions)
    ensures var file, after, command := ConfigOf(d, p), Apply(d, paths, Repair(p, enhanced, c)), CommandOf(paths, p);
            if && IntentOf(d, p) == Installed && c.sourceUsable && !(p == Codex && c.inlineHooks)
               && file.Parsed? && file.value.Object?
               && forall event <- DesiredEvents(p, enhanced) :: OwnedAt(file.value, command, event)
            then
              && ConfigOf(after, p).Parsed? && Exact(ConfigOf(after, p).value, p, command, enhanced)
              && ConfigOf(after, p) == Parsed(Merge(file.value, p, command, enhanced).0)
              && after == WithConfig(d, p, ConfigOf(after, p)).(stableBinary := true)
            else after == d
  {
    var file := ConfigOf(d, p);
    hide Merge, Exact, OwnedAt, DesiredEvents, CommandOf;
    if && file.Parsed? && file.value.Object?
       && forall event <- DesiredEvents(p, enhanced) :: OwnedAt(file.value, CommandOf(paths, p), event) {
      CompleteMerges(file.value, p, CommandOf(paths, p), enhanced);
      MergeInstallsExactly(file.value, p, CommandOf(paths, p), enhanced);
    }
  }

  /** One handler of ours at each event, with its command but none of its other fields. */
  function StaleConfig(p: Provider, command: string, enhanced: bool): Json {
    Object(map["hooks" := Object(map event | event in DesiredEvents(p, enhanced) :: List([StaleGroup(command)]))])
  }

  function StaleGroup(command: string): Json {
    Object(map["hooks" := List([Object(map["type" := Text("command"), "command" := Text(command)])])])
  }

  lemma StaleIsOwned(p: Provider, command: string, enhanced: bool, event: string)
    requires event in DesiredEvents(p, enhanced)
    ensures OwnedAt(StaleConfig(p, command, enhanced), command, event)
  {
    hide DesiredEvents;
    assert Handlers(StaleGroup(command)).value[0].Get("command") == Some(Text(command));
    assert IsOwned(Handlers(StaleGroup(command)).value[0], command);
    assert Handlers([StaleGroup(command)][0]).Some?;
  }

  lemma StaleIsNotManaged(p: Provider, event: string, command: string)
    ensures StaleGroup(command) != ManagedGroup(p, event, command)
  {
    hide Timeout;
    var handler := ManagedHandler(p, event, command);
    assert "timeout" in handler.fields;
    assert Handlers(StaleGroup(command)).value[0] != handler by {
      assert "timeout"[1] == 'i' && "type"[1] == 'y' && "command"[1] == 'o';
    }
    assert Handlers(ManagedGroup(p, event, command)) == Some([handler]);
  }

  lemma StaleIsComplete(p: Provider, command: string, enhanced: bool)
    ensures forall event <- DesiredEvents(p, enhanced) :: OwnedAt(StaleConfig(p, command, enhanced), command, event)
  {
    hide DesiredEvents, OwnedAt, StaleConfig;
    forall e <- DesiredEvents(p, enhanced)
      ensures OwnedAt(StaleConfig(p, command, enhanced), command, e)
    {
      StaleIsOwned(p, command, enhanced, e);
    }
  }

  lemma StaleIsNotExact(p: Provider, command: string, enhanced: bool)
    ensures !Exact(StaleConfig(p, command, enhanced), p, command, enhanced)
  {
    hide DesiredEvents, StaleGroup, ManagedGroup, Complete, Locations;
    SomeEventDesired(p, enhanced);
    var event := DesiredEvents(p, enhanced)[0];
    StaleIsNotManaged(p, event, command);
    var hooks := HooksOf(StaleConfig(p, command, enhanced)).value.value;
    assert event in hooks && hooks[event] == List([StaleGroup(command)]);
    assert GroupsOf(hooks, event).items == [StaleGroup(command)];
  }

  /** Handlers that lost their timeout are repaired, to what the exact check accepts. */
  lemma StaleIsRepaired(d: Disk, paths: Paths, p: Provider, enhanced: bool, c: Conditions)
    requires IntentOf(d, p) == Installed && c.sourceUsable && !(p == Codex && c.inlineHooks)
    requires ConfigOf(d, p) == Parsed(StaleConfig(p, CommandOf(paths, p), enhanced))
    ensures !Exact(ConfigOf(d, p).value, p, CommandOf(paths, p), enhanced)
    ensures var after := Apply(d, paths, Repair(p, enhanced, c));
            after != d && ConfigOf(after, p).Parsed?
            && Exact(ConfigOf(after, p).value, p, CommandOf(paths, p), enhanced)
  {
    hide Apply, Exact, Merge, OwnedAt, DesiredEvents, CommandOf;
    StaleIsComplete(p, CommandOf(paths, p), enhanced);
    StaleIsNotExact(p, CommandOf(paths, p), enhanced);
    RepairMeans(d, paths, p, enhanced, c);
  }

  /** An uninstall right after an install restores the configuration exactly when nothing in it
      was ours or already empty; a configuration there was none of stays, as an empty object. */
  lemma UninstallUndoesInstall(d: Disk, paths: Paths, p: Provider, enhanced: bool, c: Conditions)
    requires InstallSucceeds(d, paths, p, enhanced, c)
    ensures var after := UninstallHooks(InstallHooks(d, paths, p, enhanced, c), paths, p);
            && IntentOf(after, p) == Uninstalled
            && (ConfigOf(after, p) == ConfigOf(d, p)
                <==> ConfigOf(d, p).Parsed? && Tidy(ConfigOf(d, p).value, CommandOf(paths, p)))
            && (ConfigOf(d, p).Missing? ==> ConfigOf(after, p) == Parsed(Object(map[])))
  {
    var original, command := Load(ConfigOf(d, p)).value, CommandOf(paths, p);
    var merged := Merge(original, p, command, enhanced).0;
    InstallLeaves(d, paths, p, enhanced, c);
    StripAfterMerge(original, p, command, enhanced);
    InstallThenUninstall(original, p, command, enhanced);
    StripAccepts(original, p, command, enhanced);
    EmptyIsTidy(command);
    StripUnchanged(Object(map[]), command);
    hide Merge, Strip, Tidy, Exact, CommandOf, StatusLineInstalled, InstallHooks;
    UninstallLeaves(InstallHooks(d, paths, p, enhanced, c), paths, p, merged);
  }

  lemma UninstallLeaves(d: Disk, paths: Paths, p: Provider, config: Json)
    requires ConfigOf(d, p) == Parsed(config) && config.Object? && Strip(config, CommandOf(paths, p)).Ok?
    ensures IntentOf(UninstallHooks(d, paths, p), p) == Uninstalled
    ensures ConfigOf(UninstallHooks(d, paths, p), p) == Parsed(Strip(config, CommandOf(paths, p)).value)
  {
    hide Strip, CommandOf, StatusLineInstalled;
  }

  /** What can be merged can be stripped. */
  lemma StripAccepts(config: Json, p: Provider, command: string, enhanced: bool)
    requires Merge(config, p, command, enhanced).1.None?
    ensures Strip(config, command).Ok?
  {
    MergeSucceeds(config, p, command, enhanced);
    hide Merge, StripHooks, DesiredEvents;
  }

  lemma EmptyIsTidy(command: string)
    ensures Tidy(Object(map[]), command)
  {
  }

  // ----- Undoing the status line -----

  /** Installing and uninstalling the status line restores the settings exactly when they held
      neither a status line nor a saved one. */
  lemma StatusLineRoundTrip(d: Disk, paths: Paths, c: Conditions)
    requires c.sourceUsable && d.claude.Parsed? && d.claude.value.Object?
    requires d.claude.value.Get(STATUS_LINE) in {None, Some(ManagedStatusLine(paths))}
    ensures UninstallStatusLine(InstallStatusLine(d, paths, c), paths).claude == d.claude
            <==> d.claude.value.Get(STATUS_LINE).None? && d.claude.value.Get(ORIGINAL_STATUS_LINE).None?
  {
    var f := d.claude.value.fields;
    var g := f[STATUS_LINE := ManagedStatusLine(paths)];
    if ORIGINAL_STATUS_LINE in f {
      assert ORIGINAL_STATUS_LINE !in RestoredStatusLine(g);
    } else if STATUS_LINE !in f {
      assert RestoredStatusLine(g) == f;
    } else {
      assert STATUS_LINE !in RestoredStatusLine(g);
    }
  }

  /** Wrapping and uninstalling restores them exactly when nothing was saved there already. */
  lemma WrapRoundTrip(d: Disk, paths: Paths, c: Conditions)
    requires c.sourceUsable && d.claude.Parsed? && d.claude.value.Object?
    requires Wrappable(d.claude.value.Get(STATUS_LINE), paths)
    ensures UninstallStatusLine(WrapStatusLine(d, paths, c), paths).claude == d.claude
            <==> d.claude.value.Get(ORIGINAL_STATUS_LINE).None?
  {
    var f := d.claude.value.fields;
    var g := f[ORIGINAL_STATUS_LINE := f[STATUS_LINE]][STATUS_LINE := ManagedStatusLine(paths)];
    if ORIGINAL_STATUS_LINE !in f {
      assert RestoredStatusLine(g) == f;
    } else {
      assert ORIGINAL_STATUS_LINE !in RestoredStatusLine(g);
    }
  }

  /** A value saved without a status line comes back as the status line. */
  lemma SavedLineComesBack(d: Disk, paths: Paths, c: Conditions, saved: Json)
    requires c.sourceUsable && d.claude == Parsed(Object(map[ORIGINAL_STATUS_LINE := saved]))
    ensures UninstallStatusLine(InstallStatusLine(d, paths, c), paths).claude
         == Parsed(Object(map[STATUS_LINE := saved])) != d.claude
  {
    var f := d.claude.value.fields;
    var g := f[STATUS_LINE := ManagedStatusLine(paths)];
    assert STATUS_LINE != ORIGINAL_STATUS_LINE by { assert STATUS_LINE[0] == 's'; }
    assert STATUS_LINE !in f && ORIGINAL_STATUS_LINE in f;
    assert RestoredStatusLine(g) == map[STATUS_LINE := saved];
  }

  /** Wrapping forgets a value saved before: the uninstall brings back only the wrapped status line. */
  lemma EarlierSavedIsLost(d: Disk, paths: Paths, c: Conditions, saved: Json)
    requires var current := Object(map["command" := Text("date")]);
             c.sourceUsable && d.claude == Parsed(Object(map[STATUS_LINE := current, ORIGINAL_STATUS_LINE := saved]))
    ensures UninstallStatusLine(WrapStatusLine(d, paths, c), paths).claude
         == Parsed(Object(map[STATUS_LINE := Object(map["command" := Text("date")])])) != d.claude
  {
    var current := Object(map["command" := Text("date")]);
    var f := d.claude.value.fields;
    assert STATUS_LINE != ORIGINAL_STATUS_LINE by { assert STATUS_LINE[0] == 's'; }
    assert f[STATUS_LINE] == current && ORIGINAL_STATUS_LINE in f;
    assert current.Get("command") == Some(Text("date")) && !IsSpace("date"[0]);
    assert "type" in ManagedStatusLine(paths).fields && "type" !in current.fields by {
      assert "type"[0] == 't' && "command"[0] == 'c';
    }
    assert Wrappable(Some(current), paths);
    var g := f[ORIGINAL_STATUS_LINE := current][STATUS_LINE := ManagedStatusLine(paths)];
    assert RestoredStatusLine(g) == map[STATUS_LINE := current];
  }

  // ----- No status line of ours is left broken -----

  /** Our status line works wherever it is configured, and nothing is saved without it. */
  predicate StatusLineWhole(d: Disk, paths: Paths) {
    && !d.claude.Unreadable?
    && (d.claude.Parsed? ==>
          && d.claude.value.Object?
          && (d.claude.value.Get(STATUS_LINE) == Some(ManagedStatusLine(paths)) ==> StatusLineInstalled(d, paths))
          && (d.claude.value.Get(ORIGINAL_STATUS_LINE).Some? ==>
                && d.claude.value.Get(STATUS_LINE) == Some(ManagedStatusLine(paths))
                && d.claude.value.Get(ORIGINAL_STATUS_LINE) != Some(ManagedStatusLine(paths))))
  }

  lemma WholeStep(d: Disk, paths: Paths, op: Operation)
    requires StatusLineWhole(d, paths) && !op.UserEdit?
    ensures StatusLineWhole(Apply(d, paths, op), paths)
  {
    hide Merge, Strip, Complete, ManagedStatusLine;
    if op.Install? || op.Uninstall? || op.Repair? {
      var original := Load(ConfigOf(d, op.p));
      if original.Some? {
        var enhanced := if op.Uninstall? then false else op.enhanced;
        MergeKeepsField(original.value, op.p, CommandOf(paths, op.p), enhanced, STATUS_LINE);
        MergeKeepsField(original.value, op.p, CommandOf(paths, op.p), enhanced, ORIGINAL_STATUS_LINE);
        ObjectStays(original.value, op.p, CommandOf(paths, op.p), enhanced);
      }
    }
  }

  lemma ObjectStays(config: Json, p: Provider, command: string, enhanced: bool)
    requires config.Object?
    ensures Merge(config, p, command, enhanced).0.Object?
    ensures Strip(config, command).Ok? ==> Strip(config, command).value.Object?
  {
  }

  /** In every run of operations alone, from settings without a status line of ours or a saved
      one, our status line never stays configured without its files. */
  lemma {:induction false} StatusLineAlwaysWhole(claude: ConfigFile, codex: ConfigFile, paths: Paths,
                                                 ops: seq<Operation>)
    requires claude.Missing? || (claude.Parsed? && claude.value.Object?
               && claude.value.Get(STATUS_LINE) != Some(ManagedStatusLine(paths))
               && claude.value.Get(ORIGINAL_STATUS_LINE).None?)
    requires forall op <- ops :: !op.UserEdit?
    ensures StatusLineWhole(Run(Fresh(claude, codex), paths, ops), paths)
  {
    if ops != [] {
      StatusLineAlwaysWhole(claude, codex, paths, ops[..|ops| - 1]);
      WholeStep(Run(Fresh(claude, codex), paths, ops[..|ops| - 1]), paths, ops[|ops| - 1]);
    }
  }

  // ----- The binary is kept exactly while something needs it -----

  predicate BinaryJustNeeded(d: Disk, paths: Paths) {
    d.stableBinary <==> d.claudeIntent == Installed || d.codexIntent == Installed || ShowsOurs(d, paths)
  }

  lemma HooksKeepNeed(d: Disk, paths: Paths, op: Operation)
    requires StatusLineWhole(d, paths) && BinaryJustNeeded(d, paths) && (op.Install? || op.Uninstall? || op.Repair?)
    ensures BinaryJustNeeded(Apply(d, paths, op), paths)
  {
    hide Merge, Strip, Complete, ManagedStatusLine, CommandOf;
    if StatusLineInstalled(d, paths) {
      HooksKeepStatusLine(d, paths, op);
    }
    WholeStep(d, paths, op);
  }

  lemma StatusLineKeepsNeed(d: Disk, paths: Paths, op: Operation)
    requires StatusLineWhole(d, paths) && BinaryJustNeeded(d, paths)
    requires op.StatusLine? || op.WrappedStatusLine? || op.NoStatusLine?
    ensures BinaryJustNeeded(Apply(d, paths, op), paths)
  {
    hide Merge, Strip, Complete, ManagedStatusLine, CommandOf;
  }

  /** In every run of operations alone, from settings without a status line of ours or a saved
      one, the stable binary exists exactly while a provider is meant to be installed or the
      settings show our status line. */
  lemma {:induction false} BinaryOnlyWhileNeeded(claude: ConfigFile, codex: ConfigFile, paths: Paths,
                                                 ops: seq<Operation>)
    requires claude.Missing? || (claude.Parsed? && claude.value.Object?
               && claude.value.Get(STATUS_LINE) != Some(ManagedStatusLine(paths))
               && claude.value.Get(ORIGINAL_STATUS_LINE).None?)
    requires forall op <- ops :: !op.UserEdit?
    ensures BinaryJustNeeded(Run(Fresh(claude, codex), paths, ops), paths)
  {
    if ops != [] {
      var front, op := ops[..|ops| - 1], ops[|ops| - 1];
      BinaryOnlyWhileNeeded(claude, codex, paths, front);
      StatusLineAlwaysWhole(claude, codex, paths, front);
      var d := Run(Fresh(claude, codex), paths, front);
      hide Apply, BinaryJustNeeded, StatusLineWhole;
      if op.Install? || op.Uninstall? || op.Repair? {
        HooksKeepNeed(d, paths, op);
      } else {
        StatusLineKeepsNeed(d, paths, op);
      }
    }
  }
}
