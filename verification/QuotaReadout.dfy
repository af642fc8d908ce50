/** What `collect_claude` of `crates/quota/src/lib.rs` shows of the cache that
    `write_claude_cache` keeps. */
module QuotaReadout {
  import opened Options
  import opened QuotaCache

  const FRESHNESS_MS := 15 * 60 * 1_000
  const EXTRA_USAGE_MAX_AGE_MS := 31 * 24 * 60 * 60 * 1_000

  /** A value shown; `stale` marks a historical one. */
  datatype Entry<U> = Entry(name: string, usage: U, source: string, capturedAt: nat, reset: Reset, stale: bool)

  datatype Answer<U> = CacheMissing | Incompatible | FromFuture | NoValidWindow | Entries(entries: seq<Entry<U>>)

  function SaturatingSub(a: nat, b: nat): nat {
    if a >= b then a - b else 0
  }

  function CapturedAt<U>(d: Document<U>, w: Window<U>): nat {
    w.usageCapturedAt.GetOr(d.capturedAt)
  }

  /** A window worth showing: named, with a percentage in range, and for Extra Usage not
      older than a month. */
  predicate Shown<U>(d: Document<U>, w: Window<U>, inRange: U -> bool, nowMs: nat) {
    w.name != "" && inRange(w.usage)
    && (w.name != EXTRA_USAGE_WINDOW || SaturatingSub(nowMs, CapturedAt(d, w)) <= EXTRA_USAGE_MAX_AGE_MS)
  }

  function EntryOf<U>(d: Document<U>, w: Window<U>, nowMs: nat): Entry<U> {
    var capturedAt := CapturedAt(d, w);
    var resetPassed := w.reset.at.Some? && w.reset.at.value <= nowMs / 1_000;
    Entry(w.name, w.usage, w.usageSource.GetOr(d.source), capturedAt, w.reset,
          SaturatingSub(nowMs, capturedAt) > FRESHNESS_MS || resetPassed)
  }

  function EntriesOf<U>(d: Document<U>, windows: seq<Window<U>>, inRange: U -> bool, nowMs: nat): seq<Entry<U>> {
    if windows == [] then []
    else
      (if Shown(d, windows[0], inRange, nowMs) then [EntryOf(d, windows[0], nowMs)] else [])
      + EntriesOf(d, windows[1..], inRange, nowMs)
  }

  /** `collect_claude`, but for the marker that Extra Usage is turned off. */
  function Collect<U>(stored: Option<Document<U>>, inRange: U -> bool, nowMs: nat): Answer<U> {
    if stored.None? then CacheMissing
    else
      var d := stored.value;
      if d.source !in {CLAUDE_SOURCE, CLAUDE_OAUTH_SOURCE} then Incompatible
      else if d.capturedAt > SaturatingAdd(nowMs, MAX_CLOCK_SKEW_MS) then FromFuture
      else
        var entries := EntriesOf(d, d.windows, inRange, nowMs);
        if entries == [] then NoValidWindow else Entries(entries)
  }

  /** What is shown is exactly one entry for each window worth showing, in their order: `at` says
      which window each entry shows. */
  lemma {:induction false} ShowsExactly<U>(d: Document<U>, windows: seq<Window<U>>, inRange: U -> bool, nowMs: nat)
    returns (at: seq<nat>)
    ensures var entries := EntriesOf(d, windows, inRange, nowMs);
            && |at| == |entries|
            && (forall k :: 0 <= k < |at| ==> at[k] < |windows| && entries[k] == EntryOf(d, windows[at[k]], nowMs))
            && (forall j, k :: 0 <= j < k < |at| ==> at[j] < at[k])
            && (forall i :: 0 <= i < |windows| ==> (i in at <==> Shown(d, windows[i], inRange, nowMs)))
  {
    hide Shown, EntryOf;
    at := [];
    if windows != [] {
      var n := |windows| - 1;
      at := ShowsExactly(d, windows[..n], inRange, nowMs);
      EntriesOfLast(d, windows[..n], windows[n], inRange, nowMs);
      assert windows[..n] + [windows[n]] == windows;
      assert forall i :: 0 <= i < n ==> windows[..n][i] == windows[i];
      if Shown(d, windows[n], inRange, nowMs) {
        at := at + [n];
      }
    }
  }

  lemma {:induction false} EntriesOfLast<U>(d: Document<U>, front: seq<Window<U>>, last: Window<U>, inRange: U -> bool,
                                            nowMs: nat)
    ensures EntriesOf(d, front + [last], inRange, nowMs)
         == EntriesOf(d, front, inRange, nowMs)
            + if Shown(d, last, inRange, nowMs) then [EntryOf(d, last, nowMs)] else []
  {
    hide Shown, EntryOf;
    if front == [] {
      assert [last][1..] == [];
    } else {
      EntriesOfLast(d, front[1..], last, inRange, nowMs);
      assert (front + [last])[1..] == front[1..] + [last];
    }
  }

  /** Reading and merging accept the same documents, and read a window's usage alike: a legacy
      window has the source and capture time of its document in both. */
  lemma ReadsAsMerged<U>(stored: Document<U>, inRange: U -> bool, nowMs: nat)
    ensures var answer := Collect(Some(stored), inRange, nowMs);
            Mergeable(Some(stored), nowMs).Some? <==> answer.NoValidWindow? || answer.Entries?
    ensures forall i :: 0 <= i < |stored.windows| ==>
              var e := EntryOf(stored, stored.windows[i], nowMs);
              Some(e.source) == Read(stored)[i].usageSource && Some(e.capturedAt) == Read(stored)[i].usageCapturedAt
  {
  }

  /** A window whose usage has its own source and time is worth showing: it has a name, a percentage in
      range, and is no Extra Usage captured more than 31 days ago. */
  predicate Worth<U>(w: Window<U>, inRange: U -> bool, nowMs: nat)
    requires w.usageCapturedAt.Some?
  {
    w.name != "" && inRange(w.usage) && (w.name == "extra_usage" ==> nowMs <= w.usageCapturedAt.value + 2_678_400_000)
  }

  /** It was captured more than 15 minutes ago, or its reset, in seconds, has come. */
  predicate Historical<U>(w: Window<U>, nowMs: nat)
    requires w.usageCapturedAt.Some?
  {
    nowMs > w.usageCapturedAt.value + 900_000 || (w.reset.at.Some? && w.reset.at.value * 1_000 <= nowMs)
  }

  /** The entry that shows a window, read with its own source and time; its reset as it is stored. */
  ghost predicate Shows<U>(e: Entry<U>, w: Window<U>, stored: Reset, nowMs: nat)
    requires w.usageCapturedAt.Some?
  {
    && e.name == w.name && e.usage == w.usage && Some(e.source) == w.usageSource
    && Some(e.capturedAt) == w.usageCapturedAt && e.reset == stored && (e.stale <==> Historical(w, nowMs))
  }

  lemma WorthShown<U>(d: Document<U>, i: nat, inRange: U -> bool, nowMs: nat)
    requires i < |d.windows|
    ensures var w := Read(d)[i];
            && w.usageCapturedAt.Some? && (Shown(d, d.windows[i], inRange, nowMs) <==> Worth(w, inRange, nowMs))
            && Shows(EntryOf(d, d.windows[i], nowMs), w, d.windows[i].reset, nowMs)
  {
    var reset := d.windows[i].reset;
    assert reset.at.Some? ==> (reset.at.value <= nowMs / 1_000 <==> reset.at.value * 1_000 <= nowMs);
  }

  /** The document can be read at `nowMs`: it has a known source and is at most five minutes ahead. */
  predicate Readable<U>(d: Document<U>, nowMs: nat) {
    (d.source == "statusline" || d.source == "oauth_usage")
    && d.capturedAt <= nowMs + 300_000 && d.capturedAt <= U64_MAX
  }

  /** The whole read-out, told from the document as a merge reads it: which answer, and then exactly
      one entry for each window worth showing, in their order. `at` says which window each shows. */
  lemma CollectMeans<U>(d: Document<U>, inRange: U -> bool, nowMs: nat) returns (at: seq<nat>)
    ensures forall w <- Read(d) :: w.usageCapturedAt.Some?
    ensures var answer := Collect(Some(d), inRange, nowMs);
            && (answer.Entries? || answer.NoValidWindow? <==> Readable(d, nowMs))
            && (answer == Incompatible <==> d.source != "statusline" && d.source != "oauth_usage")
            && answer != CacheMissing
            && (answer.Entries? ==>
                  && |answer.entries| == |at| > 0
                  && (forall k :: 0 <= k < |at| ==>
                        at[k] < |d.windows|
                        && Shows(answer.entries[k], Read(d)[at[k]], d.windows[at[k]].reset, nowMs))
                  && (forall j, k :: 0 <= j < k < |at| ==> at[j] < at[k])
                  && (forall i :: 0 <= i < |d.windows| ==> (i in at <==> Worth(Read(d)[i], inRange, nowMs))))
            && (answer == NoValidWindow ==> forall w <- Read(d) :: !Worth(w, inRange, nowMs))
    ensures Collect<U>(None, inRange, nowMs) == CacheMissing
  {
    at := ShowsExactly(d, d.windows, inRange, nowMs);
    forall i | 0 <= i < |d.windows|
      ensures Read(d)[i].usageCapturedAt.Some?
      ensures Shown(d, d.windows[i], inRange, nowMs) <==> Worth(Read(d)[i], inRange, nowMs)
      ensures Shows(EntryOf(d, d.windows[i], nowMs), Read(d)[i], d.windows[i].reset, nowMs)
    {
      WorthShown(d, i, inRange, nowMs);
    }
    hide EntriesOf, Shown, EntryOf, Shows, Worth;
  }

  /** A window once stale or hidden for its age stays so until the cache is written again. */
  lemma AgeOnlyGrows<U>(d: Document<U>, w: Window<U>, inRange: U -> bool, earlier: nat, later: nat)
    requires earlier <= later
    ensures EntryOf(d, w, earlier).stale ==> EntryOf(d, w, later).stale
    ensures Shown(d, w, inRange, later) ==> Shown(d, w, inRange, earlier)
  {
    assert earlier / 1_000 <= later / 1_000;
  }

  /** An entry of the collection shows `reset` for `name`, stale only by age. */
  ghost predicate ShowsReset<U>(answer: Answer<U>, name: string, reset: Reset, nowMs: nat) {
    answer.Entries?
    && exists e :: e in answer.entries && e.name == name && e.reset.at == reset.at
                   && (e.stale <==> SaturatingSub(nowMs, e.capturedAt) > FRESHNESS_MS)
  }

  /** No entry for `name` shows a StatusLine reset. */
  ghost predicate ShowsOnlyOAuth<U>(answer: Answer<U>, name: string) {
    answer.Entries? ==> forall e :: e in answer.entries && e.name == name ==> FromOAuth(e.reset)
  }

  /** After any run of OAuth writes a StatusLine reset that has not passed is still what is shown
      for its window, if the window is worth showing, and does not by itself make the value stale;
      unless the first write replaced the document, some write dropped the window, or the document
      cannot be read: then no StatusLine reset is shown for it. */
  lemma ResetIsShown<U>(stored: Document<U>, writes: seq<OAuthWrite<U>>, name: string, reset: Reset, inRange: U -> bool,
                        nowMs: nat)
    requires IsRun(writes)
    requires Holds(Read(stored), name, reset) && FromStatusLine(reset) && Unexpired(reset, nowMs)
    requires forall i :: 0 <= i < |writes| ==> writes[i].nowMs <= nowMs
    ensures var d := AfterWrites(stored, writes);
            var i := IndexOf(d.windows, name);
            var answer := Collect(Some(d), inRange, nowMs);
            if Accepted(stored, writes) && NeverDropped(writes, name) && Mergeable(Some(d), nowMs).Some?
            then i < |d.windows| && (Shown(d, d.windows[i], inRange, nowMs) ==> ShowsReset(answer, name, reset, nowMs))
            else ShowsOnlyOAuth(answer, name)
  {
    if writes != [] {
      Expiry(reset, writes[|writes| - 1].nowMs, nowMs);
    }
    ResetSurvives(stored, writes, name, reset);
    var d := AfterWrites(stored, writes);
    if Accepted(stored, writes) && NeverDropped(writes, name) {
      HeldWindow(d, name, reset, inRange, nowMs);
    } else {
      DroppedWindow(d, name, inRange, nowMs);
    }
  }

  lemma HeldWindow<U>(d: Document<U>, name: string, reset: Reset, inRange: U -> bool, nowMs: nat)
    requires Holds(Read(d), name, reset) && reset.at.Some? && Unexpired(reset, nowMs)
    ensures var i := IndexOf(d.windows, name);
            var answer := Collect(Some(d), inRange, nowMs);
            if Mergeable(Some(d), nowMs).Some?
            then i < |d.windows| && (Shown(d, d.windows[i], inRange, nowMs) ==> ShowsReset(answer, name, reset, nowMs))
            else !answer.Entries?
  {
    var i := IndexOf(Read(d), name);
    assert forall j :: 0 <= j < |d.windows| ==> Read(d)[j].name == d.windows[j].name;
    FoundAt(d.windows, name, i);
    if Mergeable(Some(d), nowMs).Some? && Shown(d, d.windows[i], inRange, nowMs) {
      var at := ShowsExactly(d, d.windows, inRange, nowMs);
      var k :| 0 <= k < |at| && at[k] == i;
      var e := EntriesOf(d, d.windows, inRange, nowMs)[k];
      assert e == EntryOf(d, d.windows[i], nowMs);
    }
  }

  lemma DroppedWindow<U>(d: Document<U>, name: string, inRange: U -> bool, nowMs: nat)
    requires OnlyOAuth(Read(d), name)
    ensures ShowsOnlyOAuth(Collect(Some(d), inRange, nowMs), name)
  {
    hide EntriesOf, Shown;
    var entries := EntriesOf(d, d.windows, inRange, nowMs);
    var at := ShowsExactly(d, d.windows, inRange, nowMs);
    forall e | e in entries && e.name == name
      ensures FromOAuth(e.reset)
    {
      var k :| 0 <= k < |entries| && entries[k] == e;
      assert Read(d)[at[k]].name == name;
    }
  }
}
