/** The Claude quota cache of `crates/quota/src/lib.rs`: merging a fresh capture into the
    stored windows, and what survives any run of writes. */
module QuotaCache {
  import opened Options

  const CLAUDE_SOURCE := "statusline"
  const CLAUDE_OAUTH_SOURCE := "oauth_usage"
  const LOCAL_ESTIMATE := "local_estimate"
  const EXTRA_USAGE_WINDOW := "extra_usage"
  const MAX_CLOCK_SKEW_MS := 300_000

  /** When a window resets, who said so and when it was captured. */
  datatype Reset = Reset(at: Option<nat>, source: Option<string>, capturedAt: Option<nat>)

  const NO_RESET := Reset(None, None, None)

  /** A stored window. `usage` stands for the percentage, its label and its spend, which
      the merge only carries along. */
  datatype Window<U> = Window(name: string, usage: U, usageSource: Option<string>,
                              usageCapturedAt: Option<nat>, reset: Reset)

  datatype Document<U> = Document(source: string, capturedAt: nat, windows: seq<Window<U>>)

  function SourcePriority(source: string): nat {
    if source == CLAUDE_SOURCE then 3
    else if source == CLAUDE_OAUTH_SOURCE then 2
    else if source == LOCAL_ESTIMATE then 1
    else 0
  }

  function OrElse<T>(o: Option<T>, default: T): Option<T> {
    if o.None? then Some(default) else o
  }

  /** `normalize_legacy_cache_window`: a window without its own source and capture time has
      those of the document it was stored in. */
  function Normalized<U>(w: Window<U>, source: string, capturedAt: nat): Window<U> {
    w.(usageSource := OrElse(w.usageSource, source),
       usageCapturedAt := OrElse(w.usageCapturedAt, capturedAt),
       reset := if w.reset.at.None? then w.reset
                else w.reset.(source := OrElse(w.reset.source, source),
                              capturedAt := OrElse(w.reset.capturedAt, capturedAt)))
  }

  /** The windows of a stored document as the merge reads them. */
  function Read<U>(d: Document<U>): (windows: seq<Window<U>>)
    ensures |windows| == |d.windows|
    ensures forall i :: 0 <= i < |windows| ==> windows[i] == Normalized(d.windows[i], d.source, d.capturedAt)
  {
    seq(|d.windows|, i requires 0 <= i < |d.windows| => Normalized(d.windows[i], d.source, d.capturedAt))
  }

  predicate Unexpired(r: Reset, nowMs: nat) {
    r.at.Some? && r.at.value > nowMs / 1000
  }

  /** `merge_reset_field`: the reset a current window keeps beside a previous one. */
  function MergeReset(current: Reset, previous: Reset, nowMs: nat): Reset {
    if !Unexpired(previous, nowMs) then
      if !Unexpired(current, nowMs) then NO_RESET else current
    else
      var previousPriority := SourcePriority(previous.source.GetOr(""));
      var currentPriority := SourcePriority(current.source.GetOr(""));
      if || !Unexpired(current, nowMs)
         || previousPriority > currentPriority
         || (previousPriority == currentPriority
             && previous.capturedAt.GetOr(0) > current.capturedAt.GetOr(0))
      then previous else current
  }

  /** The first window of that name, or `|windows|`. */
  function IndexOf<U>(windows: seq<Window<U>>, name: string): (i: nat)
    ensures i <= |windows|
    ensures i < |windows| ==> windows[i].name == name
    ensures forall k :: 0 <= k < i ==> windows[k].name != name
  {
    if windows == [] || windows[0].name == name then 0 else 1 + IndexOf(windows[1..], name)
  }

  /** One turn of the merge loop. */
  function Absorb<U>(incoming: seq<Window<U>>, previous: Window<U>, source: string, nowMs: nat): seq<Window<U>> {
    var i := IndexOf(incoming, previous.name);
    if i < |incoming| then
      incoming[i := incoming[i].(reset := MergeReset(incoming[i].reset, previous.reset, nowMs))]
    else if source == CLAUDE_OAUTH_SOURCE && previous.name == EXTRA_USAGE_WINDOW then incoming
    else incoming + [previous]
  }

  function AbsorbAll<U>(incoming: seq<Window<U>>, existing: seq<Window<U>>, count: nat, source: string, nowMs: nat)
    : seq<Window<U>>
    requires count <= |existing|
  {
    if count == 0 then incoming
    else Absorb(AbsorbAll(incoming, existing, count - 1, source, nowMs), existing[count - 1], source, nowMs)
  }

  /** `merge_claude_windows`. */
  function Merged<U>(existing: Option<Document<U>>, source: string, incoming: seq<Window<U>>, nowMs: nat)
    : seq<Window<U>>
  {
    if existing.None? then incoming
    else AbsorbAll(incoming, Read(existing.value), |existing.value.windows|, source, nowMs)
  }

  /** `read_claude_cache_for_merge`: a document from the future is not merged. */
  function Mergeable<U>(stored: Option<Document<U>>, nowMs: nat): Option<Document<U>> {
    if stored.Some? && stored.value.source in {CLAUDE_SOURCE, CLAUDE_OAUTH_SOURCE}
       && stored.value.capturedAt <= SaturatingAdd(nowMs, MAX_CLOCK_SKEW_MS)
    then stored else None
  }

  /** The document `write_claude_cache` leaves behind. */
  function Written<U>(stored: Option<Document<U>>, source: string, incoming: seq<Window<U>>, nowMs: nat): Document<U> {
    Document(source, nowMs, Merged(Mergeable(stored, nowMs), source, incoming, nowMs))
  }

  /** The cache file and the loops that update it. */
  class ClaudeCache<U> {
    var stored: Option<Document<U>>

    constructor ()
      ensures stored == None
    {
      stored := None;
    }

    method MergeWindows(existing: Document<U>, source: string, captured: seq<Window<U>>, nowMs: nat)
      returns (incoming: seq<Window<U>>)
      ensures incoming == Merged(Some(existing), source, captured, nowMs)
    {
      hide MergeReset, Normalized;
      incoming := captured;
      for n := 0 to |existing.windows|
        invariant incoming == AbsorbAll(captured, Read(existing), n, source, nowMs)
      {
        var previous := Normalized(existing.windows[n], existing.source, existing.capturedAt);
        var i := Find(incoming, previous.name);
        if i < |incoming| {
          incoming := incoming[i := incoming[i].(reset := MergeReset(incoming[i].reset, previous.reset, nowMs))];
        } else if source == CLAUDE_OAUTH_SOURCE && previous.name == EXTRA_USAGE_WINDOW {
        } else {
          incoming := incoming + [previous];
        }
      }
    }

    method Write(source: string, captured: seq<Window<U>>, nowMs: nat)
      modifies this
      ensures stored == Some(Written(old(stored), source, captured, nowMs))
    {
      var existing := Mergeable(stored, nowMs);
      var windows := captured;
      if existing.Some? {
        windows := MergeWindows(existing.value, source, captured, nowMs);
      }
      stored := Some(Document(source, nowMs, windows));
    }
  }

  method Find<U>(windows: seq<Window<U>>, name: string) returns (i: nat)
    ensures i == IndexOf(windows, name)
  {
    i := 0;
    while i < |windows| && windows[i].name != name
      invariant i <= |windows|
      invariant forall k :: 0 <= k < i ==> windows[k].name != name
    {
      i := i + 1;
    }
    FoundAt(windows, name, i);
  }

  lemma FoundAt<U>(windows: seq<Window<U>>, name: string, i: nat)
    requires i <= |windows| && (i < |windows| ==> windows[i].name == name)
    requires forall k :: 0 <= k < i ==> windows[k].name != name
    ensures IndexOf(windows, name) == i
  {
  }

  // ----- Windows are kept, and keep distinct names -----

  ghost predicate Distinct<U>(windows: seq<Window<U>>) {
    forall i, j :: 0 <= i < j < |windows| ==> windows[i].name != windows[j].name
  }

  predicate Has<U>(windows: seq<Window<U>>, name: string) {
    exists i :: 0 <= i < |windows| && windows[i].name == name
  }

  lemma AbsorbHas<U>(incoming: seq<Window<U>>, previous: Window<U>, source: string, nowMs: nat, name: string)
    ensures Has(Absorb(incoming, previous, source, nowMs), name)
            <==> Has(incoming, name)
                 || (name == previous.name && !(source == CLAUDE_OAUTH_SOURCE && name == EXTRA_USAGE_WINDOW))
  {
    var out := Absorb(incoming, previous, source, nowMs);
    if i :| 0 <= i < |incoming| && incoming[i].name == name {
      assert out[i].name == name;
    }
    if i :| 0 <= i < |out| && out[i].name == name {
      assert i < |incoming| ==> incoming[i].name == name;
    }
    if out == incoming + [previous] {
      assert out[|incoming|] == previous;
    }
  }

  /** The names after a merge: all incoming ones and all stored ones, except a stored Extra
      Usage window that an OAuth write no longer reports. */
  lemma {:induction false} AbsorbAllHas<U>(incoming: seq<Window<U>>, existing: seq<Window<U>>, count: nat,
                                           source: string, nowMs: nat, name: string)
    requires count <= |existing|
    ensures Has(AbsorbAll(incoming, existing, count, source, nowMs), name)
            <==> Has(incoming, name)
                 || (Has(existing[..count], name)
                     && !(source == CLAUDE_OAUTH_SOURCE && name == EXTRA_USAGE_WINDOW))
  {
    if count > 0 {
      AbsorbAllHas(incoming, existing, count - 1, source, nowMs, name);
      var last := existing[count - 1];
      AbsorbHas(AbsorbAll(incoming, existing, count - 1, source, nowMs),
                last, source, nowMs, name);
      PrefixHas(existing, count - 1, name);
      PrefixHas(existing, count, name);
    }
  }

  lemma PrefixHas<U>(windows: seq<Window<U>>, count: nat, name: string)
    requires count <= |windows|
    ensures Has(windows[..count], name) <==> exists i :: 0 <= i < count && windows[i].name == name
  {
    if i :| 0 <= i < count && windows[i].name == name {
      assert windows[..count][i].name == name;
    }
  }

  lemma MergeKeepsWindows<U>(existing: Document<U>, source: string, incoming: seq<Window<U>>, nowMs: nat, name: string)
    ensures Has(Merged(Some(existing), source, incoming, nowMs), name)
            <==> Has(incoming, name)
                 || (Has(existing.windows, name) && !(source == CLAUDE_OAUTH_SOURCE && name == EXTRA_USAGE_WINDOW))
  {
    var read := Read(existing);
    AbsorbAllHas(incoming, read, |read|, source, nowMs, name);
    assert read[..|read|] == read;
    if i :| 0 <= i < |read| && existing.windows[i].name == name {
      assert read[i].name == name;
    }
  }

  /** Names stay distinct if the incoming ones are, even where the stored ones are not. */
  lemma {:induction false} MergeKeepsDistinct<U>(incoming: seq<Window<U>>, existing: seq<Window<U>>, count: nat,
                                                 source: string, nowMs: nat)
    requires count <= |existing| && Distinct(incoming)
    ensures Distinct(AbsorbAll(incoming, existing, count, source, nowMs))
  {
    if count > 0 {
      MergeKeepsDistinct(incoming, existing, count - 1, source, nowMs);
    }
  }

  /** Incoming windows keep their place and everything but their reset. */
  lemma {:induction false} MergeKeepsUsage<U>(incoming: seq<Window<U>>, existing: seq<Window<U>>, count: nat,
                                              source: string, nowMs: nat)
    requires count <= |existing|
    ensures var out := AbsorbAll(incoming, existing, count, source, nowMs);
            && |incoming| <= |out|
            && forall i :: 0 <= i < |incoming| ==> out[i] == incoming[i].(reset := out[i].reset)
  {
    if count > 0 {
      MergeKeepsUsage(incoming, existing, count - 1, source, nowMs);
    }
  }

  /** The stored windows a merge takes over: those not reported again, but for a dropped Extra Usage
      window. */
  function TakenOver<U>(incoming: seq<Window<U>>, existing: seq<Window<U>>, source: string): seq<Window<U>> {
    if existing == [] then []
    else
      var n := |existing| - 1;
      var last := existing[n];
      var dropped := source == CLAUDE_OAUTH_SOURCE && last.name == EXTRA_USAGE_WINDOW;
      TakenOver(incoming, existing[..n], source) + if Has(incoming, last.name) || dropped then [] else [last]
  }

  /** Stored windows that are not reported again follow the incoming ones unchanged and in order,
      with their own usage and reset, where stored names are distinct. */
  lemma {:induction false} MergeTakesOver<U>(incoming: seq<Window<U>>, existing: seq<Window<U>>, count: nat,
                                             source: string, nowMs: nat)
    requires count <= |existing| && Distinct(existing)
    ensures var out := AbsorbAll(incoming, existing, count, source, nowMs);
            |incoming| <= |out| && out[|incoming|..] == TakenOver(incoming, existing[..count], source)
  {
    MergeKeepsUsage(incoming, existing, count, source, nowMs);
    if count > 0 {
      var m := count - 1;
      var before, previous := AbsorbAll(incoming, existing, m, source, nowMs), existing[m];
      MergeTakesOver(incoming, existing, m, source, nowMs);
      MergeKeepsUsage(incoming, existing, m, source, nowMs);
      assert existing[..count][..m] == existing[..m];
      NotTakenOverYet(incoming, existing, m, source);
      assert forall i :: 0 <= i < |incoming| ==> before[i].name == incoming[i].name;
      AbsorbTail(incoming, before, previous, source, nowMs);
      hide AbsorbAll, Absorb, Has;
    }
  }

  /** One turn of the merge, on what follows the incoming windows. */
  lemma AbsorbTail<U>(incoming: seq<Window<U>>, before: seq<Window<U>>, previous: Window<U>, source: string, nowMs: nat)
    requires |incoming| <= |before| && forall i :: 0 <= i < |incoming| ==> before[i].name == incoming[i].name
    requires forall i :: |incoming| <= i < |before| ==> before[i].name != previous.name
    ensures var out := Absorb(before, previous, source, nowMs);
            var dropped := source == CLAUDE_OAUTH_SOURCE && previous.name == EXTRA_USAGE_WINDOW;
            |incoming| <= |out|
            && out[|incoming|..] == before[|incoming|..]
                                  + if Has(incoming, previous.name) || dropped then [] else [previous]
  {
    hide MergeReset;
    var i := IndexOf(before, previous.name);
    if i < |before| {
      assert incoming[i].name == previous.name;
    } else {
      assert forall k :: 0 <= k < |incoming| ==> before[k].name != previous.name;
    }
  }

  /** No window taken over from the first `m` has the name of the next. */
  lemma {:induction false} NotTakenOverYet<U>(incoming: seq<Window<U>>, existing: seq<Window<U>>, m: nat,
                                              source: string)
    requires m < |existing| && Distinct(existing)
    ensures forall w <- TakenOver(incoming, existing[..m], source) :: w in existing[..m] && w.name != existing[m].name
  {
    TakenOverFrom(incoming, existing[..m], source);
  }

  lemma {:induction false} TakenOverFrom<U>(incoming: seq<Window<U>>, existing: seq<Window<U>>, source: string)
    ensures forall w <- TakenOver(incoming, existing, source) :: w in existing
  {
    if existing != [] {
      TakenOverFrom(incoming, existing[..|existing| - 1], source);
    }
  }

  // ----- Resets are chosen whole -----

  /** StatusLine before OAuth before a local estimate before any other source. */
  predicate Outranks(a: Option<string>, b: Option<string>) {
    || (a == Some("statusline") && b != Some("statusline"))
    || (a == Some("oauth_usage") && b != Some("statusline") && b != Some("oauth_usage"))
    || (a == Some("local_estimate") && b != Some("statusline") && b != Some("oauth_usage")
        && b != Some("local_estimate"))
  }

  lemma PriorityIsRank(a: Option<string>, b: Option<string>)
    ensures SourcePriority(a.GetOr("")) > SourcePriority(b.GetOr("")) <==> Outranks(a, b)
  {
    var sources := ["statusline", "oauth_usage", "local_estimate", ""];
    assert |sources[0]| == 10 && |sources[1]| == 11 && |sources[2]| == 14;
  }

  /** `a` beats `b`: unexpired first, then by source, then by capture time. */
  predicate Beats(a: Reset, b: Reset, nowMs: nat) {
    && Unexpired(a, nowMs)
    && (|| !Unexpired(b, nowMs) || Outranks(a.source, b.source)
        || (!Outranks(b.source, a.source) && a.capturedAt.GetOr(0) > b.capturedAt.GetOr(0)))
  }

  /** The merge of two resets is one of them whole, never beaten by the other; it is no reset
      exactly when both have expired. */
  lemma MergedResetIsBest(current: Reset, previous: Reset, nowMs: nat)
    ensures var r := MergeReset(current, previous, nowMs);
            && (Unexpired(current, nowMs) || Unexpired(previous, nowMs) ==>
                Unexpired(r, nowMs) && r in {current, previous}
                && !Beats(current, r, nowMs) && !Beats(previous, r, nowMs))
            && (!Unexpired(current, nowMs) && !Unexpired(previous, nowMs) ==> r == NO_RESET)
            && (r == previous != current ==> Beats(previous, current, nowMs) || r == NO_RESET)
  {
    PriorityIsRank(current.source, previous.source);
    PriorityIsRank(previous.source, current.source);
    hide SourcePriority;
  }

  /** A stored window as the merge reads it: its usage always has a source and a capture time, its reset
      where it has a time; what was stored with the window is kept, and only what was not is the
      document's. */
  lemma ReadMeans<U>(d: Document<U>, i: nat)
    requires i < |d.windows|
    ensures var stored, w := d.windows[i], Read(d)[i];
            && w.name == stored.name && w.usage == stored.usage && w.reset.at == stored.reset.at
            && Filled(stored.usageSource, w.usageSource, d.source)
            && Filled(stored.usageCapturedAt, w.usageCapturedAt, d.capturedAt)
            && (stored.reset.at.Some? ==> Filled(stored.reset.source, w.reset.source, d.source)
                                          && Filled(stored.reset.capturedAt, w.reset.capturedAt, d.capturedAt))
            && (stored.reset.at.None? ==> w.reset == stored.reset)
  {
  }

  ghost predicate Filled<T>(stored: Option<T>, read: Option<T>, default: T) {
    read.Some? && (stored.Some? ==> read == stored) && (stored.None? ==> read.value == default)
  }

  /** No reset in a merged document mixes parts of two: each is an incoming one, a stored one
      with its legacy source filled in, or none. */
  lemma {:induction false} ResetsAreWhole<U>(incoming: seq<Window<U>>, existing: seq<Window<U>>, count: nat,
                                             source: string, nowMs: nat, i: nat)
    requires count <= |existing|
    requires i < |AbsorbAll(incoming, existing, count, source, nowMs)|
    ensures var w := AbsorbAll(incoming, existing, count, source, nowMs)[i];
            || w.reset == NO_RESET
            || (exists k :: 0 <= k < |incoming| && incoming[k].name == w.name && incoming[k].reset == w.reset)
            || (exists k :: 0 <= k < count && existing[k].name == w.name && existing[k].reset == w.reset)
  {
    if count > 0 {
      var before := AbsorbAll(incoming, existing, count - 1, source, nowMs);
      if i < |before| {
        ResetsAreWhole(incoming, existing, count - 1, source, nowMs, i);
      }
    }
  }

  /** A window on both sides, with distinct names on each: its reset is the merge of the two. */
  lemma {:induction false} BothSidesMerge<U>(incoming: seq<Window<U>>, existing: seq<Window<U>>, count: nat,
                                             source: string, nowMs: nat, i: nat)
    requires count <= |existing| && i < |incoming|
    requires Distinct(incoming) && Distinct(existing)
    ensures var out := AbsorbAll(incoming, existing, count, source, nowMs);
            var k := IndexOf(existing, incoming[i].name);
            && i < |out| && out[i].name == incoming[i].name
            && out[i].reset == if k < count
                 then MergeReset(incoming[i].reset, existing[k].reset, nowMs)
                 else incoming[i].reset
  {
    hide MergeReset;
    if count > 0 {
      BothSidesMerge(incoming, existing, count - 1, source, nowMs, i);
      MergeKeepsDistinct(incoming, existing, count - 1, source, nowMs);
    }
  }

  // ----- A StatusLine reset outlives OAuth writes -----

  /** `windows` shows `reset` for `name`: the first window of that name holds it, and no
      other window of that name holds a StatusLine reset. */
  ghost predicate Holds<U>(windows: seq<Window<U>>, name: string, reset: Reset) {
    var i := IndexOf(windows, name);
    && i < |windows| && windows[i].reset == reset
    && forall k :: i < k < |windows| && windows[k].name == name ==> FromOAuth(windows[k].reset)
  }

  /** A reset an OAuth response can carry: its own, or none. */
  predicate FromOAuth(r: Reset) {
    SourcePriority(r.source.GetOr("")) < 3
  }

  predicate FromStatusLine(r: Reset) {
    r.at.Some? && r.source == Some(CLAUDE_SOURCE) && r.capturedAt.Some?
  }

  ghost predicate OAuthCapture<U>(incoming: seq<Window<U>>) {
    forall i :: 0 <= i < |incoming| ==> FromOAuth(incoming[i].reset)
  }

  /** An OAuth write, as `refresh_claude_oauth` makes it. */
  datatype OAuthWrite<U> = OAuthWrite(incoming: seq<Window<U>>, nowMs: nat)

  function AfterWrites<U>(stored: Document<U>, writes: seq<OAuthWrite<U>>): Document<U>
    decreases |writes|
  {
    if writes == [] then stored
    else
      var last := writes[|writes| - 1];
      Written(Some(AfterWrites(stored, writes[..|writes| - 1])), CLAUDE_OAUTH_SOURCE, last.incoming, last.nowMs)
  }

  /** Before the merge reaches the stored window of that name, only OAuth resets show. */
  ghost predicate Waiting<U>(windows: seq<Window<U>>, name: string, reported: bool) {
    && (IndexOf(windows, name) < |windows| <==> reported)
    && forall k :: 0 <= k < |windows| && windows[k].name == name ==> FromOAuth(windows[k].reset)
  }

  /** Loop invariant of the merge as seen by one name: waiting until its stored window is
      reached, and showing the stored reset from then on. */
  lemma {:induction false} OAuthMergeShows<U>(incoming: seq<Window<U>>, existing: seq<Window<U>>, count: nat,
                                              nowMs: nat, name: string, reset: Reset)
    requires count <= |existing| && OAuthCapture(incoming)
    requires Holds(existing, name, reset) && FromStatusLine(reset) && Unexpired(reset, nowMs)
    requires name != EXTRA_USAGE_WINDOW || Has(incoming, name)
    ensures var out := AbsorbAll(incoming, existing, count, CLAUDE_OAUTH_SOURCE, nowMs);
            if count <= IndexOf(existing, name) then Waiting(out, name, Has(incoming, name))
            else Holds(out, name, reset)
  {
    if count > 0 {
      OAuthMergeShows(incoming, existing, count - 1, nowMs, name, reset);
      var before := AbsorbAll(incoming, existing, count - 1, CLAUDE_OAUTH_SOURCE, nowMs);
      if existing[count - 1].name != name {
        AbsorbOther(before, existing[count - 1], nowMs, name, reset, Has(incoming, name));
      } else if count - 1 == IndexOf(existing, name) {
        AbsorbTakes(before, existing[count - 1], nowMs, reset, Has(incoming, name));
      } else {
        AbsorbKeeps(before, existing[count - 1], nowMs, reset);
      }
    } else {
      var i := IndexOf(incoming, name);
      assert i < |incoming| ==> incoming[i].name == name;
    }
  }

  lemma AbsorbOther<U>(before: seq<Window<U>>, previous: Window<U>, nowMs: nat, name: string, reset: Reset,
                       reported: bool)
    requires previous.name != name
    ensures var out := Absorb(before, previous, CLAUDE_OAUTH_SOURCE, nowMs);
            && (Waiting(before, name, reported) ==> Waiting(out, name, reported))
            && (Holds(before, name, reset) ==> Holds(out, name, reset))
  {
    var out := Absorb(before, previous, CLAUDE_OAUTH_SOURCE, nowMs);
    var i := IndexOf(before, name);
    FoundAt(out, name, if i < |before| then i else |out|);
  }

  lemma AbsorbTakes<U>(before: seq<Window<U>>, previous: Window<U>, nowMs: nat, reset: Reset, reported: bool)
    requires Waiting(before, previous.name, reported) && (previous.name != EXTRA_USAGE_WINDOW || reported)
    requires FromStatusLine(reset) && Unexpired(reset, nowMs) && previous.reset == reset
    ensures Holds(Absorb(before, previous, CLAUDE_OAUTH_SOURCE, nowMs), previous.name, reset)
  {
    FoundAt(Absorb(before, previous, CLAUDE_OAUTH_SOURCE, nowMs), previous.name, IndexOf(before, previous.name));
  }

  lemma AbsorbKeeps<U>(before: seq<Window<U>>, previous: Window<U>, nowMs: nat, reset: Reset)
    requires Holds(before, previous.name, reset) && FromOAuth(previous.reset)
    requires FromStatusLine(reset) && Unexpired(reset, nowMs)
    ensures Holds(Absorb(before, previous, CLAUDE_OAUTH_SOURCE, nowMs), previous.name, reset)
  {
    FoundAt(Absorb(before, previous, CLAUDE_OAUTH_SOURCE, nowMs), previous.name, IndexOf(before, previous.name));
  }

  /** Only OAuth resets show under `name`. */
  ghost predicate OnlyOAuth<U>(windows: seq<Window<U>>, name: string) {
    forall k :: 0 <= k < |windows| && windows[k].name == name ==> FromOAuth(windows[k].reset)
  }

  /** One OAuth write keeps an unexpired StatusLine reset exactly where it merges the stored document
      and does not drop the window: Extra Usage, no longer reported. Otherwise only OAuth resets show. */
  lemma OAuthWriteKeepsReset<U>(stored: Document<U>, incoming: seq<Window<U>>, nowMs: nat, name: string, reset: Reset)
    requires OAuthCapture(incoming)
    requires Holds(Read(stored), name, reset) && FromStatusLine(reset) && Unexpired(reset, nowMs)
    ensures var windows := Read(Written(Some(stored), CLAUDE_OAUTH_SOURCE, incoming, nowMs));
            if Mergeable(Some(stored), nowMs).Some? && (name != EXTRA_USAGE_WINDOW || Has(incoming, name))
            then Holds(windows, name, reset) else OnlyOAuth(windows, name) && !Holds(windows, name, reset)
  {
    var document := Written(Some(stored), CLAUDE_OAUTH_SOURCE, incoming, nowMs);
    if Mergeable(Some(stored), nowMs).None? {
      OAuthWriteReplaces(stored, incoming, nowMs, name);
    } else if name != EXTRA_USAGE_WINDOW || Has(incoming, name) {
      OAuthMergeShows(incoming, Read(stored), |stored.windows|, nowMs, name, reset);
      FoundAt(Read(document), name, IndexOf(document.windows, name));
    } else {
      OAuthWriteDrops(stored, incoming, nowMs);
    }
    hide Written;
    OneOrTheOther(Read(document), name, reset);
  }

  /** A name that shows only OAuth resets shows no others after an OAuth write. */
  lemma OAuthWriteAddsNone<U>(stored: Document<U>, incoming: seq<Window<U>>, nowMs: nat, name: string)
    requires OAuthCapture(incoming) && OnlyOAuth(Read(stored), name)
    ensures OnlyOAuth(Read(Written(Some(stored), CLAUDE_OAUTH_SOURCE, incoming, nowMs)), name)
  {
    var existing := Mergeable(Some(stored), nowMs);
    var windows := Merged(existing, CLAUDE_OAUTH_SOURCE, incoming, nowMs);
    if existing.Some? {
      forall i | 0 <= i < |windows| && windows[i].name == name
        ensures FromOAuth(windows[i].reset)
      {
        ResetsAreWhole(incoming, Read(stored), |stored.windows|, CLAUDE_OAUTH_SOURCE, nowMs, i);
      }
    }
  }

  /** An OAuth write that merges no document leaves only what it captured. */
  lemma OAuthWriteReplaces<U>(stored: Document<U>, incoming: seq<Window<U>>, nowMs: nat, name: string)
    requires OAuthCapture(incoming) && Mergeable(Some(stored), nowMs).None?
    ensures OnlyOAuth(Read(Written(Some(stored), CLAUDE_OAUTH_SOURCE, incoming, nowMs)), name)
  {
  }

  /** An OAuth write that does not report Extra Usage leaves no window of that name. */
  lemma OAuthWriteDrops<U>(stored: Document<U>, incoming: seq<Window<U>>, nowMs: nat)
    requires Mergeable(Some(stored), nowMs).Some? && !Has(incoming, EXTRA_USAGE_WINDOW)
    ensures OnlyOAuth(Read(Written(Some(stored), CLAUDE_OAUTH_SOURCE, incoming, nowMs)), EXTRA_USAGE_WINDOW)
  {
    MergeKeepsWindows(stored, CLAUDE_OAUTH_SOURCE, incoming, nowMs, EXTRA_USAGE_WINDOW);
    var windows := Written(Some(stored), CLAUDE_OAUTH_SOURCE, incoming, nowMs).windows;
    assert forall i :: 0 <= i < |windows| ==> windows[i].name != EXTRA_USAGE_WINDOW;
  }

  /** The first write of the run merges the stored document: it comes from a known source and is not
      from further in the future than clocks may differ. */
  predicate Accepted<U>(stored: Document<U>, writes: seq<OAuthWrite<U>>) {
    writes != [] ==>
      && stored.source in {CLAUDE_SOURCE, CLAUDE_OAUTH_SOURCE}
      && stored.capturedAt <= SaturatingAdd(writes[0].nowMs, MAX_CLOCK_SKEW_MS)
  }

  /** No write of the run drops the window. */
  ghost predicate NeverDropped<U>(writes: seq<OAuthWrite<U>>, name: string) {
    name != EXTRA_USAGE_WINDOW || forall i :: 0 <= i < |writes| ==> Has(writes[i].incoming, name)
  }

  /** OAuth writes at nondecreasing readings of a 64-bit clock. */
  ghost predicate IsRun<U>(writes: seq<OAuthWrite<U>>) {
    && (forall i :: 0 <= i < |writes| ==> OAuthCapture(writes[i].incoming) && writes[i].nowMs <= U64_MAX)
    && (forall i, j :: 0 <= i < j < |writes| ==> writes[i].nowMs <= writes[j].nowMs)
  }

  /** Over any run of OAuth writes a stored StatusLine reset unexpired at the last write is still
      shown exactly when the first write merged the document and no write dropped its window: any
      window but Extra Usage, and that one when every write reported it. Otherwise only OAuth resets
      show. */
  lemma {:induction false} ResetSurvives<U>(stored: Document<U>, writes: seq<OAuthWrite<U>>, name: string, reset: Reset)
    requires IsRun(writes)
    requires Holds(Read(stored), name, reset) && FromStatusLine(reset)
    requires writes != [] ==> Unexpired(reset, writes[|writes| - 1].nowMs)
    ensures var windows := Read(AfterWrites(stored, writes));
            if Accepted(stored, writes) && NeverDropped(writes, name)
            then Holds(windows, name, reset) else OnlyOAuth(windows, name) && !Holds(windows, name, reset)
    decreases |writes|
  {
    if writes != [] {
      var n := |writes| - 1;
      var earlier, last := writes[..n], writes[n];
      if n > 0 {
        assert earlier[n - 1] == writes[n - 1] && earlier[0] == writes[0];
        Expiry(reset, writes[n - 1].nowMs, last.nowMs);
      }
      ResetSurvives(stored, earlier, name, reset);
      DroppedSoFar(writes, n, name);
      LaterWritesMerge(stored, writes, n);
      var before := AfterWrites(stored, earlier);
      hide Written, Accepted, NeverDropped, Holds, OnlyOAuth, Mergeable;
      if Accepted(stored, earlier) && NeverDropped(earlier, name) {
        OAuthWriteKeepsReset(before, last.incoming, last.nowMs, name, reset);
      } else {
        OAuthWriteAddsNone(before, last.incoming, last.nowMs, name);
        OneOrTheOther(Read(AfterWrites(stored, writes)), name, reset);
      }
    }
  }

  /** Only the first write can find a document it does not merge. */
  lemma LaterWritesMerge<U>(stored: Document<U>, writes: seq<OAuthWrite<U>>, n: nat)
    requires IsRun(writes) && n + 1 == |writes|
    ensures Accepted(stored, writes)
            <==> Accepted(stored, writes[..n])
                 && Mergeable(Some(AfterWrites(stored, writes[..n])), writes[n].nowMs).Some?
  {
    if n > 0 {
      var before := AfterWrites(stored, writes[..n]);
      assert before.source == CLAUDE_OAUTH_SOURCE && before.capturedAt == writes[..n][n - 1].nowMs <= writes[n].nowMs;
      assert writes[..n][0] == writes[0];
    }
  }

  const EMPTY_WRITE: OAuthWrite<int> := OAuthWrite([], 100_000)

  /** A document with one window whose StatusLine reset is due in 9999 seconds. */
  function OneWindow(name: string, capturedAt: nat): Document<int> {
    Document(CLAUDE_SOURCE, capturedAt,
             [Window(name, 0, Some(CLAUDE_SOURCE), Some(capturedAt), StatusLineReset(capturedAt))])
  }

  function StatusLineReset(capturedAt: nat): Reset {
    Reset(Some(9_999), Some(CLAUDE_SOURCE), Some(capturedAt))
  }

  lemma OneWindowHolds(name: string, capturedAt: nat)
    ensures Holds(Read(OneWindow(name, capturedAt)), name, StatusLineReset(capturedAt))
    ensures FromStatusLine(StatusLineReset(capturedAt)) && Unexpired(StatusLineReset(capturedAt), 100_000)
  {
    FoundAt(Read(OneWindow(name, capturedAt)), name, 0);
  }

  /** An unexpired StatusLine reset is lost to a write whose clock is more than five minutes behind
      the capture, though not to one exactly five minutes behind. */
  lemma FutureCaptureIsLost()
    ensures var writes := [EMPTY_WRITE];
            && !Holds(Read(AfterWrites(OneWindow("5h", 400_001), writes)), "5h", StatusLineReset(400_001))
            && Holds(Read(AfterWrites(OneWindow("5h", 400_000), writes)), "5h", StatusLineReset(400_000))
  {
    var writes := [EMPTY_WRITE];
    OneWindowHolds("5h", 400_001);
    OneWindowHolds("5h", 400_000);
    assert "5h" != EXTRA_USAGE_WINDOW by { assert |"5h"| != |EXTRA_USAGE_WINDOW|; }
    hide Holds, OneWindow, StatusLineReset, AfterWrites;
    ResetSurvives(OneWindow("5h", 400_001), writes, "5h", StatusLineReset(400_001));
    ResetSurvives(OneWindow("5h", 400_000), writes, "5h", StatusLineReset(400_000));
  }

  /** An unexpired StatusLine reset of Extra Usage is lost to a write that does not report it. */
  lemma ExtraUsageIsDropped()
    ensures var writes := [EMPTY_WRITE];
            !Holds(Read(AfterWrites(OneWindow(EXTRA_USAGE_WINDOW, 0), writes)), EXTRA_USAGE_WINDOW, StatusLineReset(0))
  {
    var writes := [EMPTY_WRITE];
    OneWindowHolds(EXTRA_USAGE_WINDOW, 0);
    assert !Has(writes[0].incoming, EXTRA_USAGE_WINDOW);
    hide Holds, OneWindow, StatusLineReset, AfterWrites, Has;
    ResetSurvives(OneWindow(EXTRA_USAGE_WINDOW, 0), writes, EXTRA_USAGE_WINDOW, StatusLineReset(0));
  }

  lemma DroppedSoFar<U>(writes: seq<OAuthWrite<U>>, n: nat, name: string)
    requires n + 1 == |writes|
    ensures NeverDropped(writes, name)
            <==> NeverDropped(writes[..n], name) && (name != EXTRA_USAGE_WINDOW || Has(writes[n].incoming, name))
  {
    hide Has;
    assert forall i :: 0 <= i < n ==> writes[..n][i] == writes[i];
  }

  lemma OneOrTheOther<U>(windows: seq<Window<U>>, name: string, reset: Reset)
    requires FromStatusLine(reset)
    ensures OnlyOAuth(windows, name) ==> !Holds(windows, name, reset)
  {
  }

  lemma Expiry(reset: Reset, earlier: nat, later: nat)
    requires earlier <= later && Unexpired(reset, later)
    ensures Unexpired(reset, earlier)
  {
    assert earlier / 1000 <= later / 1000;
  }
}
