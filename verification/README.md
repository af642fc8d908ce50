# ActRealm: a verified model

ActRealm is a local runtime that merges quota data from several agents, edits other tools'
configuration files, and carries approval decisions between agents and a person. This project
models the parts of it where a wrong step is easy to write and hard to see, and proves what they
promise: over every input, every run, or every interleaving.

| Module | What it models |
|---|---|
| `Calendar`, `Timestamps` | the hand-written RFC 3339 parser and its era/year-of-era day formula |
| `QuotaCache`, `QuotaReadout` | the Claude quota cache: merging captures, and reading them back |
| `Rollouts` | the early-exit scan for the newest Codex quota event |
| `OAuthRefresh`, `OAuthTraces` | the OAuth refresh with its two cooldowns and its abandon flag, and the same told from what a call does |
| `HookConfig`, `HookAlgebra`, `HookInstall` | stripping, merging and recognising managed hooks in a provider's JSON |
| `InstallerRuns` | install, uninstall, repair and the status line over the installer's files |
| `AgentHooks` | the Kimi hook list and Grok's hook file with the preference it borrows |
| `Quoting` | the shell and XML printers, against readers for both |
| `PendingDecisions`, `SessionProjections` | the undo-window decision and the session state folded from events |
| `RpcTable` | the pending table callers, reader thread, timeouts and shutdown share |
| `ToolUpdates` | the tool calls an ACP observer keeps for a turn, and the events it makes of them |
| `AcpReplies`, `AcpFrames`, `AcpClient` | what an ACP agent asks, how answers are routed, and the client loop with its reply threads |
| `Framing` | newline framing on the bridge socket, and the client's wait for its reply |
| `SessionOrder` | the session comparator, sorting by it, and when a deleted task comes back |
| `Options`, `Decimals`, `JsonValues`, `Replies` | option and result types, decimal printing, parsed JSON, reply actions |

## How it is built

Each stateful component has a specification on values (a step function such as `Step`, `Next`,
`Merge` or `Refresh`) and, where the program changes state in place, a class or a loop whose
contract says that it computes exactly that step; the classes of the decision protocols also keep
their invariant as `Valid()`. The lemmas are about the specification, so they hold of the class. A
run is a sequence of steps, taken apart at its last one; an action that is not enabled does not
happen, so lemmas about runs quantify over every sequence.

Concurrency (`RpcTable`, `AcpClient`) is a state machine whose actions are single critical
sections, atomic operations, or one send, receive or write. Any thread may act next.

Strings are byte strings in UTF-8, one character a byte, except in `SessionOrder`, where they are
the JavaScript strings the locale compares. Machine integers are unbounded numbers, with
saturation, checked arithmetic and wrap-around written out where the program relies on them.
The outside world (clock readings, what an endpoint answers, what a user edits, which thread runs)
enters as parameters or as the choice of the next action.

`dafny verify dfyconfig.toml` checks the whole project.

## What the proofs found

The code is modelled as it is. These are places where a natural reading of its promise fails, with
the exact condition under which it holds.

- The parser takes day 31 in every month, so section 5.7 of RFC 3339 is not fully enforced; such a
  day is the same instant as the day it runs over to (`Calendar.DayRunsOver`).
- At the very last clock reading the refresh cooldown saturates and no longer holds off a second
  renewal in one call; one renewal a call, and the spacing of a whole run, hold exactly before it
  (`OAuthRefresh.OneRenewalPerCall`, `OAuthRefresh.SpacedUpTo`).
- An OAuth write loses an unexpired StatusLine reset in two ways: it drops a stored Extra Usage
  window it no longer reports, and it ignores a stored document captured more than five minutes
  after its own clock. Over a run the reset survives exactly when neither happens: the first write
  merges the document, and the window is not Extra Usage or every write reported it
  (`QuotaCache.ResetSurvives`; losses in `QuotaCache.FutureCaptureIsLost` and
  `QuotaCache.ExtraUsageIsDropped`).
- The early exit passes over the newest event when an eligible file visited before has an event
  later than the newest one's file was modified by more than the tolerance, and exactly then
  (`Rollouts.EarlyExitIsExact`, `Rollouts.LateEventIsMissed`).
- Uninstalling hooks restores the original configuration exactly when it held nothing of ours and
  no group or event that was already empty (`HookAlgebra.InstallThenUninstall`); empty hooks do not
  come back (`HookAlgebra.EmptyHooksAreTidied`).
- Installing and removing the status line restores the settings exactly when no saved original was
  there (`InstallerRuns.StatusLineRoundTrip`, `InstallerRuns.WrapRoundTrip`). Otherwise it becomes
  the status line, or is lost to a wrapped one (`InstallerRuns.SavedLineComesBack`,
  `InstallerRuns.EarlierSavedIsLost`).
- Grok's saved preference outlives an outside edit and is put back over the user's own choice by
  the next install and uninstall (`AgentHooks.StalePreference`; the exact condition is in
  `AgentHooks.GrokRoundTrip`, which also says when an empty `[cli]` table stays behind).
- A refused Grok configuration is noticed only after the hook file was already changed
  (`AgentHooks.LateRefusal`; the exact condition is in `AgentHooks.RefusalIsCleanOrLate`).
- Removing Kimi hooks where there is no configuration writes an empty one
  (`AgentHooks.KimiFileRoundTrip`).
- A late pass-through turns even a sent decision into an expired one
  (`PendingDecisions.FinishedChanges`, `PendingDecisions.SentThenExpired`).
- The comparator is a strict total order exactly when no two sessions tie down to the locale's
  ranking of their ids, which canonically equivalent ids do (`SessionOrder.TotalWhenSeparated`,
  `SessionOrder.EquivalentIdsTie`); compared with itself the selected session comes before itself
  (`SessionOrder.SelfComparison`).
- Where several permission options carry the same label, only the first can be chosen
  (`AcpReplies.SameLabelHides`; which options can be is `AcpReplies.SelectableIsReachable`).
- A new turn may begin after an interaction has left the table and before its reply is written. An
  id the agent then uses again gets two results in that turn. Exactly then is a reply late
  (`AcpClient.LateReply`), and two results under one id in one turn need it (`AcpClient.SharedId`;
  a run of this kind is `AcpClient.TwoResultsInOneTurn`).

## Model

| member | source | states |
|---|---|---|
| Calendar.FormulaCountsDays | crates/quota/src/lib.rs:1457-1467 | for every year from 0 and month 1 to 12 the era/year-of-era formula equals a recursive count of days since 1970-01-01 by the leap-year rule |
| Calendar.NextDayIsNext | crates/quota/src/lib.rs:1457-1467 | the next calendar day is always exactly one more |
| Calendar.FormulaIncreases | crates/quota/src/lib.rs:1457-1467 | real dates are before one another exactly as their day numbers are, and equal exactly when these are |
| Calendar.DayRunsOver | crates/quota/src/lib.rs:1415-1467 | a day past its month's end is the same instant as the day it runs over to |
| Calendar.DateOfNumber | crates/quota/src/lib.rs:1457-1467 | every day number from 1969-12-31 on belongs to a date |
| Timestamps.FractionTruncates | crates/quota/src/lib.rs:1425-1439 | the first three fraction digits, zero-filled, are the fraction truncated to milliseconds |
| Timestamps.CombineNeverOverflows | crates/quota/src/lib.rs:1457-1474 | no checked operation fails on a clock in range: the value is local time minus offset, and None exactly before 1970 |
| Timestamps.ParseUndoesPrint | crates/quota/src/lib.rs:1392-1474 | parsing any printed RFC 3339 stamp gives its instant, and None exactly before 1970 |
| Timestamps.AcceptedIsPrinted | crates/quota/src/lib.rs:1392-1474 | every string the parser accepts is a printed stamp |
| Timestamps.ParserMeaning | crates/quota/src/lib.rs:1392-1474 | the parser accepts exactly the printed stamps from 1970 on, each with its own instant |
| Timestamps.InstantRoundTrip | crates/quota/src/lib.rs:1392-1474 | every instant from 1970 on survives printing at any offset within 23:59 and parsing, while its local year has four digits |
| QuotaCache.ClaudeCache.MergeWindows | crates/quota/src/lib.rs:1545-1574 | the merge loop computes the specified merge of stored and incoming windows |
| QuotaCache.ClaudeCache.Write | crates/quota/src/lib.rs:1476-1543 | a write leaves exactly the merged document, ignoring a stored one from the future or of another source |
| QuotaCache.MergeKeepsWindows | crates/quota/src/lib.rs:1545-1574 | a window is in the merge exactly when it is incoming, or stored and not an Extra Usage window an OAuth write dropped |
| QuotaCache.MergeTakesOver | crates/quota/src/lib.rs:1555-1572 | where stored names are distinct, what follows the incoming windows is exactly the stored windows neither incoming nor a dropped Extra Usage, unchanged and in their order |
| QuotaCache.MergeKeepsDistinct | crates/quota/src/lib.rs:1545-1574 | window names stay distinct if the incoming ones are |
| QuotaCache.MergeKeepsUsage | crates/quota/src/lib.rs:1545-1574 | incoming windows keep their place and everything but their reset |
| QuotaCache.MergedResetIsBest | crates/quota/src/lib.rs:1591-1625 | the merged reset is one of the two, never beaten by unexpired, source priority, capture time; none exactly when both have expired |
| QuotaCache.ReadMeans | crates/quota/src/lib.rs:1576-1589 | a stored window keeps what was stored with it; a missing source or capture time of its usage, or of a reset that has a time, is the document's |
| QuotaCache.ResetsAreWhole | crates/quota/src/lib.rs:1545-1616 | no merged reset mixes parts of two: each is an incoming one, a stored one, or none |
| QuotaCache.BothSidesMerge | crates/quota/src/lib.rs:1545-1616 | an incoming window also stored gets the merge of its two resets, and one not stored keeps its own |
| QuotaCache.OAuthWriteKeepsReset | crates/quota/src/lib.rs:1533-1625 | one OAuth write keeps an unexpired StatusLine reset exactly where it merges the stored document and does not drop the window; otherwise only OAuth resets show |
| QuotaCache.ResetSurvives | crates/quota/src/lib.rs:1476-1625 | over any run of OAuth writes at nondecreasing times a stored StatusLine reset unexpired at the last one is still shown exactly when the first write merges the document (of a known source, captured no more than five minutes after its clock) and the window is not Extra Usage or every write reported it; otherwise only OAuth resets show |
| QuotaCache.FutureCaptureIsLost | crates/quota/src/lib.rs:1533-1543 | a concrete reset captured 300.001 s after the clock of the next write is lost, one captured 300 s after it is kept |
| QuotaCache.ExtraUsageIsDropped | crates/quota/src/lib.rs:1561-1564 | a concrete write drops Extra Usage with its unexpired reset |
| QuotaReadout.ShowsExactly | crates/quota/src/lib.rs:497-550 | the read-out is exactly one entry for each window worth showing, in their order |
| QuotaReadout.CollectMeans | crates/quota/src/lib.rs:434-558 | the whole read-out from the document as the merge reads it: which documents are refused and why, and one entry, in order, for each named window in range that is no Extra Usage older than 31 days, historical exactly when captured over 15 minutes ago or past its reset |
| QuotaReadout.ReadsAsMerged | crates/quota/src/lib.rs:461-520 | reading and merging accept the same documents, and give a legacy window the same source and capture time |
| QuotaReadout.AgeOnlyGrows | crates/quota/src/lib.rs:507-548 | a window once stale, or hidden for its age, stays so until the cache is written again |
| QuotaReadout.ResetIsShown | crates/quota/src/lib.rs:434-558 | after any run of OAuth writes an unexpired StatusLine reset is what is shown for its window, stale only by age, unless the first write did not merge the document, a write dropped the window, or the document cannot be read: then no StatusLine reset is shown for it |
| Rollouts.SortSorts | crates/quota/src/lib.rs:590-602 | the files visited are the files found, newest-modified first |
| Rollouts.SortIsStable | crates/quota/src/lib.rs:590-602 | files modified at the same time keep the order they were found in |
| Rollouts.CollectCodex | crates/quota/src/lib.rs:590-627 | the loop with its early exit computes the specified scan; it finds the newest eligible event exactly when the winning file is in reach, in particular where events are timely |
| Rollouts.FullScanIsNewest | crates/quota/src/lib.rs:611-625 | the scan without its early exit finds the first file attaining the greatest event time among eligible files |
| Rollouts.EarlyExitIsExact | crates/quota/src/lib.rs:603-627 | the early exit selects the first file attaining the greatest event time exactly when no eligible file before it has an event later than its modification time plus the tolerance, or there is no eligible file |
| Rollouts.EarlyExitIsSafe | crates/quota/src/lib.rs:603-627 | if no event is later than its file's modification time plus the tolerance, the early exit selects what a full scan selects |
| Rollouts.ScanMeans | crates/quota/src/lib.rs:590-627 | in whatever order files are found, nothing is found exactly when none is eligible; otherwise the event of an eligible file, than which no other's is newer but for files modified more than a minute before it |
| Rollouts.NewestIsUnique | crates/quota/src/lib.rs:603-627 | that selection leaves no choice |
| Rollouts.LateEventIsMissed | crates/quota/src/lib.rs:603-627 | a concrete pair of files shows the proviso is needed |
| OAuthRefresh.QuotaCollector.RefreshFromProvider | crates/quota/src/lib.rs:404-418 | renewal inside its cooldown only rereads the store; otherwise it is checked, started and its cooldown set |
| OAuthRefresh.QuotaCollector.MapOAuthError | crates/quota/src/lib.rs:420-432 | a 401 forgets the credential, a 429 starts the retry cooldown |
| OAuthRefresh.QuotaCollector.RefreshClaudeOAuth | crates/quota/src/lib.rs:333-402 | the method does exactly the specified call: fields, effects in order, and outcome |
| OAuthRefresh.CallGuarantees | crates/quota/src/lib.rs:333-432 | from any earlier state a call fetches at most twice, never inside the retry cooldown, checks directly before every act, stops at a rate limit, and leaves the cooldowns as its effects say |
| OAuthRefresh.FetchesAreJustified | crates/quota/src/lib.rs:333-402 | a second fetch follows a 401 and carries another token; the cache is written only after a fetch that was answered with windows |
| OAuthRefresh.AbandonedStops | crates/quota/src/lib.rs:333-418 | once a check sees the abandon flag the call does not renew, fetch or write |
| OAuthRefresh.OneRenewalPerCall | crates/quota/src/lib.rs:404-418 | at most one renewal a call whatever happens outside, exactly while the clock is not at its last reading |
| OAuthRefresh.TwoRenewals | crates/quota/src/lib.rs:404-418 | at the last reading some call renews twice |
| OAuthRefresh.RunIsSpaced | crates/quota/src/lib.rs:333-432 | over any run of calls at nondecreasing times short of the last clock reading, renewals start at least 60 s apart and no fetch happens in the 60 s after a rate limit |
| OAuthRefresh.SpacedUpTo | crates/quota/src/lib.rs:333-432 | all runs with readings up to a limit are so spaced, exactly while the limit is not the last reading of the clock |
| OAuthRefresh.CrowdedRun | crates/quota/src/lib.rs:404-418 | a run at the last clock reading renews twice at once |
| OAuthTraces.CallMeans | crates/quota/src/lib.rs:333-432 | exactly when a call checks, looks, renews, fetches and writes, each told from what it did before and what the world answered; it returns where nothing follows, and how its trace ends tells the outcome and the fields it leaves |
| OAuthTraces.LastCallMeans | crates/quota/src/lib.rs:333-432 | so does every call of a run, whatever the calls before it left |
| OAuthTraces.WritesMean | crates/quota/src/lib.rs:384-402 | the cache is written exactly where a fetch was answered with windows and the check after it passed, and new values are returned exactly by a call that has written |
| OAuthTraces.PlainCall | crates/quota/src/lib.rs:333-402 | a concrete call checks, looks, checks, fetches, checks and writes |
| HookConfig.HookTree.StripOwnedHooks | crates/installer/src/lib.rs:1429-1472 | the nested in-place rewrite computes the specified strip, or reports the error and changes nothing |
| HookConfig.HookTree.MergeProviderHooks | crates/installer/src/lib.rs:1372-1396 | the in-place merge computes the specified merge and its error |
| HookAlgebra.StripIdempotent | crates/installer/src/lib.rs:1429-1472 | stripping twice is stripping once |
| HookAlgebra.StripUnchanged | crates/installer/src/lib.rs:1429-1472 | stripping changes nothing exactly when there is nothing owned and nothing already empty |
| HookAlgebra.StripKeepsUserEntries | crates/installer/src/lib.rs:1429-1472 | through a strip every handler that is not ours keeps its event and order, and the groups kept are groups of the original, in order, alike in all but our handlers; every other group held no handler of the user's and nothing beside matcher and hooks |
| HookAlgebra.MergeSucceeds | crates/installer/src/lib.rs:1372-1396 | a merge succeeds exactly when the root and its hooks are objects and every desired event is a list or absent |
| HookAlgebra.ErrorsMean | crates/installer/src/lib.rs:1372-1472 | which error a merge or strip reports: no object, hooks that are none, or the first desired event that is no list |
| HookAlgebra.StripAfterMerge | crates/installer/src/lib.rs:1372-1472 | strip after merge equals strip alone |
| HookAlgebra.MergeIdempotent | crates/installer/src/lib.rs:1372-1396 | merging twice is merging once |
| HookAlgebra.MergeKeepsUserEntries | crates/installer/src/lib.rs:1372-1472 | a merge keeps every foreign handler in its event, group and order, drops only groups with nothing of the user's beside a matcher, adds the managed group to each desired event and nothing else, and leaves every other setting |
| HookAlgebra.InstallThenUninstall | crates/installer/src/lib.rs:1372-1472 | install then uninstall restores the original exactly when nothing in it was owned or already empty |
| HookAlgebra.EmptyHooksAreTidied | crates/installer/src/lib.rs:1465-1470 | a configuration with empty hooks comes back without them |
| HookInstall.MergeInstallsExactly | crates/installer/src/lib.rs:1537-1573 | a merged configuration passes the exact-install check |
| HookInstall.MergedLocations | crates/installer/src/lib.rs:1575-1600 | after a merge the owned handlers stand exactly at the end of each desired event |
| HookInstall.MergeOwnsDesired | crates/installer/src/lib.rs:1504-1535 | after a merge exactly the desired events hold an owned handler |
| HookInstall.HookCommandSplits | crates/installer/src/lib.rs:1499-1502 | splitting a hook command finds the quoted program and provider it was built from |
| HookInstall.OwnershipCrossesHomes | crates/installer/src/lib.rs:1474-1502 | a hook of any home's installation, under the program's name or its former one, is owned under any other's command exactly for the same provider |
| HookInstall.ManagedMeans | crates/installer/src/lib.rs:1398-1427 | a managed group holds one handler with the hook command, for a day or an hour exactly where the agent waits for the user and 5 seconds elsewhere, and nothing else than Codex's matcher and message |
| HookInstall.DesiredMeans | crates/installer/src/lib.rs:1359-1370 | every event at which the agent waits for the user is installed; enhanced activity adds two, for Codex only |
| InstallerRuns.Installer.Install | crates/installer/src/lib.rs:861-933 | install changes the configuration, intent and binary as specified, or nothing |
| InstallerRuns.Installer.Uninstall | crates/installer/src/lib.rs:935-987 | uninstall strips, records the intent, and removes the binary unless something still needs it |
| InstallerRuns.Installer.Repair | crates/installer/src/lib.rs:989-1030 | repair installs exactly where the intent is installed and every desired event still has an owned handler |
| InstallerRuns.Installer.InstallClaudeStatusline | crates/installer/src/lib.rs:697-738 | the status line is installed unless a foreign one is configured |
| InstallerRuns.Installer.InstallClaudeStatuslineWrapper | crates/installer/src/lib.rs:740-800 | a foreign status line with a command is saved and wrapped |
| InstallerRuns.Installer.UninstallClaudeStatusline | crates/installer/src/lib.rs:802-850 | our status line is removed or the saved one put back, its files removed, the binary kept for installed hooks |
| InstallerRuns.InstallMeans | crates/installer/src/lib.rs:868-933 | exactly when an install succeeds; it leaves the merged configuration, the intent and the binary, and otherwise nothing changes |
| InstallerRuns.UninstallMeans | crates/installer/src/lib.rs:935-987 | exactly when an uninstall succeeds; it leaves the stripped configuration or none, the intent, and the binary exactly for the other provider or a working status line of ours |
| InstallerRuns.StatusLineMeans | crates/installer/src/lib.rs:697-738 | ours is shown with its files exactly where none or ours was, a foreign one never replaced, and no other setting changes |
| InstallerRuns.WrapMeans | crates/installer/src/lib.rs:740-800 | a wrappable foreign status line is saved and ours shown, and no other setting changes; otherwise nothing does |
| InstallerRuns.NoStatusLineMeans | crates/installer/src/lib.rs:802-850 | our status line is removed exactly where the settings show it: the saved one, if any, takes its place, its files go, the binary with them unless a provider is installed, and no other setting changes |
| InstallerRuns.BinaryAlwaysServed | crates/installer/src/lib.rs:802-1030 | in every run with any user edits between, an installed intent implies the stable binary exists |
| InstallerRuns.HooksKeepStatusLine | crates/installer/src/lib.rs:659-1030 | no hook operation breaks an installed status line |
| InstallerRuns.RepairAddsNoEvent | crates/installer/src/lib.rs:989-1030 | repair never gives an event an owned handler it had none of |
| InstallerRuns.RepairMeans | crates/installer/src/lib.rs:989-1030 | repair acts exactly where the intent is installed, an install is possible and every desired event has an owned handler: it leaves the merged configuration, which passes the exact check, and the binary; otherwise nothing changes |
| InstallerRuns.StaleIsRepaired | crates/installer/src/lib.rs:1007-1022 | handlers that lost their timeout are repaired to what the exact check accepts |
| InstallerRuns.InstallSettles | crates/installer/src/lib.rs:861-1030 | right after an install the exact check passes, and repair or another install changes nothing |
| InstallerRuns.UninstallUndoesInstall | crates/installer/src/lib.rs:861-987 | uninstall after install restores the file exactly when nothing in it was ours or already empty; a file there was none of stays as an empty object |
| InstallerRuns.StatusLineAlwaysWhole | crates/installer/src/lib.rs:659-987 | in every run of operations our status line is never configured without its files, and nothing is saved without it |
| InstallerRuns.BinaryOnlyWhileNeeded | crates/installer/src/lib.rs:697-1030 | in every run of operations the stable binary exists exactly while a provider intent is installed or the settings show our status line |
| InstallerRuns.StatusLineRoundTrip | crates/installer/src/lib.rs:697-850 | status line install and uninstall restore the settings exactly when they held neither a status line nor a saved one |
| InstallerRuns.SavedLineComesBack | crates/installer/src/lib.rs:697-850 | a value saved without a status line comes back as the status line |
| InstallerRuns.WrapRoundTrip | crates/installer/src/lib.rs:740-850 | wrap and uninstall restore the settings exactly when nothing was saved before |
| InstallerRuns.EntriesRun | crates/installer/src/lib.rs:1032-1047 | a shell runs a hook entry as the binary with its provider's arguments, and the status line as the helper alone |
| InstallerRuns.WrappableMeans | crates/installer/src/lib.rs:745-754 | a status line is wrapped exactly when it is not ours and its command is not blank |
| InstallerRuns.EarlierSavedIsLost | crates/installer/src/lib.rs:740-850 | wrapping a status line beside a value saved before loses that value |
| AgentHooks.BuildHooks | crates/installer/src/agents.rs:282-306 | the loops build the specified hook list, or refuse at the first edited entry |
| AgentHooks.AgentHooks.ChangeKimi | crates/installer/src/agents.rs:267-345 | a Kimi change writes the whole specified file or refuses and leaves everything as it was |
| AgentHooks.AgentHooks.ConfigureGrokShared | crates/installer/src/agents.rs:184-226 | the preference is saved and set, restored, or left, as specified; an unreadable one changes nothing |
| AgentHooks.AgentHooks.ChangeGrok | crates/installer/src/agents.rs:237-345 | a Grok change does exactly the specified steps in their order |
| AgentHooks.ChangeResult | crates/installer/src/agents.rs:112-129 | a change keeps foreign entries in order, leaves nothing edited, and reads as installed exactly after an install |
| AgentHooks.EntriesMean | crates/installer/src/agents.rs:118-293 | a change is refused exactly for an entry with our command that lacks a field of each of our events or has a matcher, and hooks are installed exactly when each event has an entry with all its fields |
| AgentHooks.KimiEvents | crates/installer/src/agents.rs:14-95 | Kimi has 17 events, among them the request for a permission and its result |
| AgentHooks.KimiRoundTrip | crates/installer/src/agents.rs:282-312 | install is idempotent, uninstall undoes any install, and the original list comes back exactly when nothing in it was ours |
| AgentHooks.KimiFileRoundTrip | crates/installer/src/agents.rs:267-345 | exactly which files are refused; install is idempotent; uninstall, right away or after any install, gives the original file exactly when there was one with nothing of ours, and an empty document where there was none |
| AgentHooks.InstallsAgree | crates/installer/src/agents.rs:184-345 | any number of Grok installs is one |
| AgentHooks.GrokRoundTrip | crates/installer/src/agents.rs:184-226 | installs and one uninstall restore the preference exactly when none was saved or the saved one was in force, and the document exactly when it had a cli table |
| AgentHooks.StalePreference | crates/installer/src/agents.rs:200-215 | a concrete run in which a stale saved preference replaces the user's |
| AgentHooks.UninstallTouchesOnlyOwn | crates/installer/src/agents.rs:208-215 | an uninstall writes the configuration only over a true it owns |
| AgentHooks.RefusalIsCleanOrLate | crates/installer/src/agents.rs:251-337 | a change is refused exactly for an edited hook file or an unreadable preference; it then changes at most the hook file, and nothing exactly when that file was edited or already as wanted |
| AgentHooks.LateRefusal | crates/installer/src/agents.rs:322-337 | a concrete install refused after the hook file was put in place |
| Quoting.QuotedIsOneWord | crates/installer/src/lib.rs:1795-1804 | a POSIX shell reads either quoted form as one word, the original; shell_quote exactly for nonempty ones |
| Quoting.QuoteReads | crates/installer/src/agents.rs:347-349 | the single-quoted form reads as the original inside any command line |
| Quoting.CommandLineReads | crates/installer/src/lib.rs:1032-1038 | a shell runs the quoted program with exactly its plain arguments |
| Quoting.HookCommandRuns | crates/installer/src/lib.rs:1032-1038 | a hook command reads as the binary, hook, --provider and the provider |
| Quoting.XmlIsOnePass | crates/app/src/service.rs:296-304 | the five sequential replacements equal a one-pass escape |
| Quoting.XmlReads | crates/app/src/service.rs:296-304 | the predefined entities of XML 1.0 turn the escaped text back into the original |
| PendingDecisions.PendingDecision.Propose | crates/core/src/lib.rs:569-581 | the method does exactly the specified step and reply |
| PendingDecisions.PendingDecision.Undo | crates/core/src/lib.rs:583-592 | the method does exactly the specified step and reply |
| PendingDecisions.PendingDecision.PassThrough | crates/core/src/lib.rs:594-608 | the method does exactly the specified step and reply |
| PendingDecisions.PendingDecision.TakeDue | crates/core/src/lib.rs:610-630 | the method does exactly the specified step and reply |
| PendingDecisions.CommittingIsLive | crates/core/src/lib.rs:569-630 | in every run committing means exactly that an accepted proposal is unsettled, due 3000 ms after it and before the deadline |
| PendingDecisions.TakenWhenDue | crates/core/src/lib.rs:610-630 | a decision is taken exactly at a reading before the deadline and at least 3000 ms after its unsettled proposal |
| PendingDecisions.UndoneInTime | crates/core/src/lib.rs:583-592 | an undo is accepted exactly less than 3000 ms after an unsettled proposal |
| PendingDecisions.LiveIsLast | crates/core/src/lib.rs:569-592 | there is one unsettled proposal, the last accepted |
| PendingDecisions.TakenOnce | crates/core/src/lib.rs:610-630 | in every run under any clock readings at most one decision is taken |
| PendingDecisions.FinishedStays | crates/core/src/lib.rs:569-630 | a finished request never becomes open or committing again |
| PendingDecisions.RepliesMean | crates/core/src/lib.rs:569-630 | the exact condition of every reply: a proposal is accepted exactly while open with more than 3000 ms left, a pass-through exactly in time and unfinished |
| PendingDecisions.StateMeans | crates/core/src/lib.rs:569-630 | every state by the operations and replies so far: sent or passed through until something comes too late, expired once something did, committing while a proposal is unsettled, else open |
| PendingDecisions.FinishedChanges | crates/core/src/lib.rs:594-608 | a finished request changes only by a late pass-through, which expires it |
| PendingDecisions.SentThenExpired | crates/core/src/lib.rs:594-630 | a concrete decision is taken and then expired by a pass-through at the deadline |
| SessionProjections.SessionProjection.ApplyEvent | crates/core/src/lib.rs:424-497 | the method applies an event exactly as specified |
| SessionProjections.SessionProjection.MarkDecisionSent | crates/core/src/lib.rs:499-505 | the method does exactly the specified update |
| SessionProjections.SessionProjection.PassThrough | crates/core/src/lib.rs:507-511 | the method does exactly the specified update |
| SessionProjections.TimeNeverDecreases | crates/core/src/lib.rs:424-497 | over any run the last event time never goes back |
| SessionProjections.IgnoredLeaveNoTrace | crates/core/src/lib.rs:424-440 | leaving every ignored event out of a run leaves the final state, and no ignored event |
| SessionProjections.TerminalIsLeftByRestart | crates/core/src/lib.rs:429-440 | a finished or failed session changes state exactly at a timely prompt, session start or session end |
| SessionProjections.AwaitingMeans | crates/core/src/lib.rs:452-496 | approval is awaited exactly when a request for it took effect and nothing but asides has since |
| SessionProjections.StateMeans | crates/core/src/lib.rs:452-497 | each state holds exactly when the last event that took effect, asides apart, is one of that state's own; idle also before any |
| SessionProjections.TookMeans | crates/core/src/lib.rs:424-440 | an event takes effect exactly when it is no older than those that did and the session is not over or it starts it again |
| SessionProjections.SentMeans | crates/core/src/lib.rs:499-505 | a decision is recorded as sent exactly when it was sent while approval was awaited and no later prompt, request or decision took effect |
| SessionProjections.ConfirmedMeans | crates/core/src/lib.rs:442-450 | a decision is confirmed exactly when one that still stands was followed by its matching event |
| SessionProjections.TerminalMeans | crates/core/src/lib.rs:442-511 | the terminal owns an approval exactly when it was handed over while awaited with no decision standing, and no event has set the owner or confirmed a decision since |
| SessionProjections.WidgetMeans | crates/core/src/lib.rs:442-511 | the widget owns an approval exactly when it was asked for and since then not handed to the terminal, reset by an event, or confirmed |
| RpcTable.CodexConnector.FetchId | crates/codex-connector/src/lib.rs:362-362 | the counter moves on modulo 2^64 and the call takes the old value |
| RpcTable.CodexConnector.Insert | crates/codex-connector/src/lib.rs:364-368 | the sender is stored under the printed id |
| RpcTable.CodexConnector.Advance | crates/codex-connector/src/lib.rs:369-386 | what a write or a receive finds moves the call on |
| RpcTable.CodexConnector.Leave | crates/codex-connector/src/lib.rs:370-384 | a failed or timed-out call removes its own key |
| RpcTable.CodexConnector.CompleteResponse | crates/codex-connector/src/lib.rs:443-450 | the reader takes the sender stored under the response's key, if any |
| RpcTable.CodexConnector.Deliver | crates/codex-connector/src/lib.rs:450-456 | the taken sender is used in a separate step |
| RpcTable.CodexConnector.FailAllPending | crates/codex-connector/src/lib.rs:458-464 | the drain sends to every stored sender once and leaves the table empty |
| RpcTable.SendEach | crates/codex-connector/src/lib.rs:459-463 | the loop over a drained table sends to each stored sender exactly once, in any order |
| RpcTable.KeepsSound | crates/codex-connector/src/lib.rs:356-464 | every step keeps what the connector's methods rely on: senders stored once, by calls that stored them, and until ids repeat the whole invariant |
| RpcTable.EveryRunKeeps | crates/codex-connector/src/lib.rs:356-464 | in every interleaving of fewer than 2^64 calls each call in progress has its one sender in the table, with the reader or used |
| RpcTable.EntriesAreInProgress | crates/codex-connector/src/lib.rs:356-387 | every key in the table is the printed id of a call still in progress |
| RpcTable.OneResult | crates/codex-connector/src/lib.rs:356-387 | a call gets at most one result, a drain or a response carrying its id, and never finds its channel closed without one |
| RpcTable.ReturnedStays | crates/codex-connector/src/lib.rs:376-386 | what a call returned never changes |
| RpcTable.ReaderPicksOwner | crates/codex-connector/src/lib.rs:187-216 | the reader picks a call exactly for a response whose id prints as the call's while its sender is stored, with what the response says |
| RpcTable.ResponseNamesOneCall | crates/codex-connector/src/lib.rs:619-625 | no response can belong to two calls, and a numeric id names the call of that number |
| RpcTable.ResultsAreGiven | crates/codex-connector/src/lib.rs:356-464 | every result was given by one message or drain that came while the request was in the table |
| RpcTable.GivenOnce | crates/codex-connector/src/lib.rs:443-464 | a call is given a result at most once in a run |
| RpcTable.ResultMeans | crates/codex-connector/src/lib.rs:443-464 | a call that returned a result was given it by one action: an error exactly where its response carried that error, a value exactly where it carried none and that result, or neither and the value is null |
| RpcTable.PhaseMeans | crates/codex-connector/src/lib.rs:356-387 | a call fails, times out, gets its result or finds its channel closed exactly by that step, and returns from a failure exactly once it has left the table |
| RpcTable.ClosedMeans | crates/codex-connector/src/lib.rs:402-416 | the connection is closed exactly once that step was taken |
| ToolUpdates.Observer.Notification | crates/providers/src/acp.rs:86-112 | the method keeps and reports exactly as specified |
| ToolUpdates.CopyFields | crates/providers/src/acp.rs:95-99 | copying an update's fields in any order is overriding by it |
| ToolUpdates.ToolsBounded | crates/providers/src/acp.rs:90-92 | at most 4096 tools are kept however many are reported |
| ToolUpdates.FieldsAreLastSent | crates/providers/src/acp.rs:87-99 | a kept tool's fields are exactly those of this turn's updates, each as last sent, whatever was refused for lack of room |
| ToolUpdates.NotedReport | crates/providers/src/acp.rs:100-112 | an event is reported exactly when a tool's status becomes its word |
| ToolUpdates.UpdateMeans | crates/providers/src/acp.rs:86-112 | an update that names a tool with an id in bounds overrides that tool's fields, if it is kept or fewer than 4096 are, and reports exactly that its status becomes in_progress, completed or failed; any other changes nothing |
| ToolUpdates.ReportedExactly | crates/providers/src/acp.rs:100-112 | in a run an event is reported exactly at an update that makes the tool's status the event's word |
| ToolUpdates.NoRepeatedReport | crates/providers/src/acp.rs:86-112 | no tool reports an event twice in a turn unless it was sent another status in between |
| AcpReplies.CollectQuestions | crates/providers/src/acp.rs:172-186 | the loop builds the specified mapping or refuses |
| AcpReplies.MappingNumbers | crates/providers/src/acp.rs:169-186 | questions map exactly when their texts are well formed and all different, in order under q0, q1, ... |
| AcpReplies.AnswersMatchIds | crates/providers/src/acp.rs:324-326 | equal counts and present ids mean exactly the generated ids |
| AcpReplies.QuestionReply | crates/providers/src/acp.rs:318-335 | a reply is accepted exactly when it answers the generated ids and no others; its keys are then exactly the texts, each with the answer under its id; anything else cancels |
| AcpReplies.PermissionReply | crates/providers/src/acp.rs:193-242 | the exact option a permission or choice reply selects, and that nothing else is ever selected |
| AcpReplies.SelectableIsReachable | crates/providers/src/acp.rs:207-242 | an option can be selected by some response exactly when it is the first to allow or the first to reject, or, with several ways to allow, the first offered under its label |
| AcpReplies.SameLabelHides | crates/providers/src/acp.rs:346-357 | of two ways to allow under one label no response selects the second |
| AcpReplies.ConsentIsNeeded | crates/providers/src/acp.rs:298-366 | without a response every route cancels; a plan is approved exactly by an allowing response, a Grok form filled exactly by an accepting one; any other form carries exactly the action and content of the response, and cancels where it has none |
| AcpReplies.ReplyStaysInFrame | crates/providers/src/acp.rs:138-366 | for every frame and answer a reply has the frame's id, selects only an option the frame offers as allow_once or reject_once, and accepts only its questions |
| AcpFrames.InteractMeans | crates/providers/src/acp.rs:138-290 | a frame becomes an interaction exactly when it is addressed to the session and asks for a plan, a form, 1 to 20 questions or a permission with 1 to 50 options, as its JSON says; its id, kind, route and whether it can be approved follow |
| AcpFrames.ApprovalIsTaken | crates/providers/src/acp.rs:193-278 | a concrete permission with one way to allow and one to reject becomes an approval |
| AcpFrames.PermissionSelects | crates/providers/src/acp.rs:193-350 | over the frame's own options: which option a permission reply selects, and that it otherwise selects nothing |
| AcpClient.Client.Frame | crates/app/src/agent.rs:495-515 | the first part of the frame loop: refused, ignored as already answered, or accepted |
| AcpClient.Client.CountPending | crates/app/src/agent.rs:516-516 | the count of pending interactions decides whether the interaction is let in |
| AcpClient.Client.RefuseBusy | crates/app/src/agent.rs:517-521 | an interaction over the limit is answered with an error at once |
| AcpClient.Client.StartThread | crates/app/src/agent.rs:523-533 | the interaction waits in the table |
| AcpClient.Client.ThreadRemoves | crates/app/src/agent.rs:533-541 | a reply thread takes its interaction out of the table |
| AcpClient.Client.ThreadReplies | crates/app/src/agent.rs:542-546 | and then writes what its route makes of the response |
| AcpClient.Client.PromptChecksPending | crates/app/src/agent.rs:355-369 | a prompt goes on only when nothing is pending |
| AcpClient.Client.PromptBeginsTurn | crates/app/src/agent.rs:370-371 | a new turn is numbered |
| AcpClient.Client.PromptClearsAnswered | crates/app/src/agent.rs:370-375 | a new turn forgets the answered ids |
| AcpClient.StepKeeps | crates/app/src/agent.rs:355-547 | every step of the loop or a thread keeps the table, acceptance and reply invariants, which the client's methods require and keep |
| AcpClient.EveryRunKeeps | crates/app/src/agent.rs:355-547 | the table, acceptance and reply invariants hold in every interleaving of the loop and its threads |
| AcpClient.FrameMeans | crates/app/src/agent.rs:495-515 | a frame that asks for something under a new id is entered with its kind and route and nothing is written; one without a session or that asks for nothing is answered so |
| AcpClient.CountMeans | crates/app/src/agent.rs:516-521 | an interaction is refused exactly when 16 wait already |
| AcpClient.PendingIsBounded | crates/app/src/agent.rs:495-547 | at most 16 interactions are pending, each with its id in answered even across a new turn's clear, and each id is accepted at most once per turn |
| AcpClient.RepliesAreFaithful | crates/app/src/agent.rs:505-547 | no accepted interaction is replied to twice, and each reply goes to its own id, selects only what its own frame offered and accepts only what that frame asked |
| AcpClient.LateReply | crates/app/src/agent.rs:355-547 | a reply goes out in a later turn than its interaction exactly when a turn began after the thread removed it and before it replied |
| AcpClient.SharedId | crates/app/src/agent.rs:355-547 | two replies under one id fall in one turn exactly when none begins between them, and then one of the two was overtaken by a new turn |
| AcpClient.TwoResultsInOneTurn | crates/app/src/agent.rs:355-547 | a concrete run in which a reused id gets two results in one turn |
| Framing.Take | crates/bridge/src/unix.rs:205-208 | the part of a chunk taken is its prefix through the first newline |
| Framing.ReadRequest | crates/bridge/src/unix.rs:197-224 | the result depends on the chunks only through the stream they make up |
| Framing.PrefixIs | crates/bridge/src/unix.rs:197-224 | the frame is the one prefix that ends at the first newline or with the stream |
| Framing.ReadMeans | crates/bridge/src/unix.rs:197-224 | too large exactly when that prefix is over the limit, and the exact conditions for a frame and for a failed read |
| Framing.SentIsRead | crates/bridge/src/unix.rs:90-92 | a request printed without a newline is read back whole, whatever follows and however the stream ends, or is too large |
| Framing.AwaitReply | crates/bridge/src/unix.rs:98-156 | the loop ends at the first turn it cannot go on from, with the specified reply |
| Framing.KnownIsCommon | crates/bridge/src/unix.rs:146-151 | while the wait goes on every instance heard of is the known one |
| Framing.GotIsFirst | crates/bridge/src/unix.rs:130-155 | the reply is the first line that is not a ping, and it and every ping before it agree on the id and on the runtime instance |
| Framing.WaitMeans | crates/bridge/src/unix.rs:98-156 | the wait goes on only over empty polls and its own request's pings, each other turn ends it with its own error, and the runtime has changed exactly when two lines name different instances |
| SessionOrder.PriorityIsLeastRank | web/agent-state.js:26-53 | a session's priority is the least rank among its own state and its actionable items |
| SessionOrder.PriorityMeans | web/agent-state.js:30-53 | failures and errors come first, then approvals, native approvals, questions, being busy, completions |
| SessionOrder.BeforeMeans | web/agent-state.js:44-75 | one session is listed before another exactly when more urgent, or as urgent and selected, or waiting longer, started later or with a later event, or by the locale where none leads |
| SessionOrder.ComparesByKey | web/agent-state.js:44-75 | for different sessions the comparison is a lexicographic order of keys, infinite ages included |
| SessionOrder.TieMeans | web/agent-state.js:55-75 | when exactly two different sessions compare as equal |
| SessionOrder.TotalWhenSeparated | web/agent-state.js:55-75 | on sessions with distinct ids the comparison is a strict total order exactly when no two tie |
| SessionOrder.RankSeparates | web/agent-state.js:74-74 | a locale that ranks the ids apart leaves no ties |
| SessionOrder.EquivalentIdsTie | web/agent-state.js:74-74 | two canonically equivalent ids tie, and there is no order |
| SessionOrder.SelfComparison | web/agent-state.js:59-60 | a session is before itself exactly when selected |
| SessionOrder.OneSortedList | web/agent-state.js:55-75 | sorting gives one list whatever the input order |
| SessionOrder.DeletedUntilNewer | web/agent-state.js:12-24 | a task removed now is deleted, and stays so exactly until an event, turn or question later than its watermark, the earliest time not before now nor before anything it had |
| SessionOrder.DeletedMeans | web/agent-state.js:12-24 | a task is deleted exactly when it was removed at some time and has no event, turn or question later |

## Left out

- SQLite storage, `RuntimeStore`, `WaiterRegistry` and the HTTP and WebSocket server are not part of this model.
- Sockets, processes, terminals, Keychain, curl, launchctl and code signing: they enter as outcomes a step may have.
- Parsing of JSON, TOML and UTF-8: the model starts from parsed values and from strings.
- File-system detail: permissions, links, temporary names, backups, the installation lock and sync; a file is optional content and a write is one step.
- Percentages and currency rounding: a window's usage is carried unchanged, and its range check is a parameter.
- `normalize_frame`: interactions are taken from normalized frames. Printed ids are taken to tell ids apart, and fresh request ids to be unique.
- The plan, title and model notifications of an ACP agent, tool payloads, and the events published to the runtime: display only.
- Event-name normalisation tables, client identity capture, doctor reports, translations and the user interface.
- The marker that Extra Usage is turned off, reasons and labels shown with quota entries, and the bound on the cache file's size.
- The definition hash, its time stamp and the report of what an operation did; the number of handlers a strip removed.
- A poisoned lock, a panicking thread, and a failure in the middle of writing one file.
- RpcTable.EveryRunKeeps: for fewer than 2^64 calls, after which ids repeat.
- Quoting.CommandLineReads: does not model that a word with `=` before the program name is an assignment; no quoted program of the installer is one.
- InstallerRuns.Installer.InstallClaudeStatuslineWrapper: blank commands are told by ASCII white space, not by all of Unicode's.
- SessionOrder.TotalWhenSeparated: a locale is a ranking of strings by real numbers, which any total preorder on them has.
- The ACP client's limit on prompt size, its terminal input and its start-up handshake.
