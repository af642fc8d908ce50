/** `collect_codex` of `crates/quota/src/lib.rs`: the newest rate-limit event across rollout
    files, found without reading every file. */
module Rollouts {
  import opened Options
  import QuotaCache

  const TOLERANCE_MS := 60_000

  /** A file's last rate-limit event: its own time and its quota entries. */
  datatype Event<E> = Event(at: nat, entries: seq<E>)

  /** A rollout file as one scan finds it. `event` is None where reading it fails or it has
      no such event; `versioned` says whether its session header named a version. */
  datatype Rollout<E> = Rollout(path: string, modifiedAt: nat, versioned: bool, event: Option<Event<E>>)

  // ----- Newest-modified order: `sort_by_key` with a reversed key, a stable sort -----

  predicate NewestFirst<E>(files: seq<Rollout<E>>) {
    forall i, j :: 0 <= i < j < |files| ==> files[i].modifiedAt >= files[j].modifiedAt
  }

  function Insert<E>(file: Rollout<E>, files: seq<Rollout<E>>): seq<Rollout<E>> {
    if files == [] || files[0].modifiedAt <= file.modifiedAt then [file] + files
    else [files[0]] + Insert(file, files[1..])
  }

  function SortNewestFirst<E>(files: seq<Rollout<E>>): seq<Rollout<E>> {
    if files == [] then [] else Insert(files[0], SortNewestFirst(files[1..]))
  }

  /** The files modified at `m`, in order: what a stable sort must not disturb. */
  function Modified<E>(files: seq<Rollout<E>>, m: nat): seq<Rollout<E>> {
    if files == [] then []
    else (if files[0].modifiedAt == m then [files[0]] else []) + Modified(files[1..], m)
  }

  lemma {:induction false} InsertKeeps<E>(file: Rollout<E>, files: seq<Rollout<E>>)
    ensures multiset(Insert(file, files)) == multiset{file} + multiset(files)
  {
    if files != [] && files[0].modifiedAt > file.modifiedAt {
      InsertKeeps(file, files[1..]);
      assert files == [files[0]] + files[1..];
    }
  }

  lemma {:induction false} InsertSorts<E>(file: Rollout<E>, files: seq<Rollout<E>>)
    requires NewestFirst(files)
    ensures NewestFirst(Insert(file, files))
    ensures forall k :: 0 <= k < |Insert(file, files)| ==>
              Insert(file, files)[k].modifiedAt <= file.modifiedAt
              || (files != [] && Insert(file, files)[k].modifiedAt <= files[0].modifiedAt)
  {
    if files != [] && files[0].modifiedAt > file.modifiedAt {
      InsertSorts(file, files[1..]);
    }
  }

  lemma {:induction false} SortSorts<E>(files: seq<Rollout<E>>)
    ensures NewestFirst(SortNewestFirst(files))
    ensures multiset(SortNewestFirst(files)) == multiset(files)
  {
    if files != [] {
      SortSorts(files[1..]);
      InsertSorts(files[0], SortNewestFirst(files[1..]));
      InsertKeeps(files[0], SortNewestFirst(files[1..]));
      assert files == [files[0]] + files[1..];
    }
  }

  lemma {:induction false} InsertIsStable<E>(file: Rollout<E>, files: seq<Rollout<E>>, m: nat)
    ensures Modified(Insert(file, files), m) == (if file.modifiedAt == m then [file] else []) + Modified(files, m)
  {
    if files != [] && files[0].modifiedAt > file.modifiedAt {
      InsertIsStable(file, files[1..], m);
      var rest := Insert(file, files[1..]);
      assert Insert(file, files) == [files[0]] + rest && ([files[0]] + rest)[1..] == rest;
      if files[0].modifiedAt == m {
        assert Modified(rest, m) == Modified(files[1..], m);
      }
    } else {
      assert ([file] + files)[1..] == files;
    }
  }

  /** Files modified at the same time stay in the order they were found. */
  lemma {:induction false} SortIsStable<E>(files: seq<Rollout<E>>, m: nat)
    ensures Modified(SortNewestFirst(files), m) == Modified(files, m)
  {
    if files != [] {
      SortIsStable(files[1..], m);
      InsertIsStable(files[0], SortNewestFirst(files[1..]), m);
    }
  }

  // ----- The full scan, by definition -----

  /** The event a file can win with, if any. */
  function Candidate<E>(file: Rollout<E>, latestAllowed: nat): Option<Event<E>> {
    if file.modifiedAt <= latestAllowed && file.versioned && file.event.Some?
       && file.event.value.at <= latestAllowed && file.event.value.entries != []
    then file.event else None
  }

  /** `i` is the first file attaining the greatest event time among eligible files. */
  ghost predicate Wins<E>(files: seq<Rollout<E>>, latestAllowed: nat, i: int) {
    && 0 <= i < |files| && Candidate(files[i], latestAllowed).Some?
    && forall j :: 0 <= j < |files| && Candidate(files[j], latestAllowed).Some? ==>
         var (a, b) := (files[i].event.value.at, files[j].event.value.at);
         b <= a && (b == a ==> i <= j)
  }

  ghost predicate IsNewest<E>(files: seq<Rollout<E>>, latestAllowed: nat, newest: Option<Event<E>>) {
    if newest.None? then forall j :: 0 <= j < |files| ==> Candidate(files[j], latestAllowed).None?
    else exists i :: Wins(files, latestAllowed, i) && files[i].event == newest
  }

  /** The defining property leaves no choice. */
  lemma NewestIsUnique<E>(files: seq<Rollout<E>>, latestAllowed: nat, a: Option<Event<E>>, b: Option<Event<E>>)
    requires IsNewest(files, latestAllowed, a) && IsNewest(files, latestAllowed, b)
    ensures a == b
  {
    if a.Some? && b.Some? {
      var i :| Wins(files, latestAllowed, i) && files[i].event == a;
      var j :| Wins(files, latestAllowed, j) && files[j].event == b;
      assert i == j;
    }
  }

  // ----- The program's scan -----

  function LatestAllowed(nowMs: nat): nat {
    SaturatingAdd(nowMs, QuotaCache.MAX_CLOCK_SKEW_MS)
  }

  /** No eligible event is later than its file's modification time plus the tolerance: what
      a writer that appends events as it goes guarantees. */
  ghost predicate Timely<E>(files: seq<Rollout<E>>, latestAllowed: nat) {
    forall f <- files :: Candidate(f, latestAllowed).Some? ==>
      f.event.value.at <= SaturatingAdd(f.modifiedAt, TOLERANCE_MS)
  }

  /** What the scan has found in a prefix, and whether it stops before the next file. */
  function Best<E>(found: Option<Event<E>>, file: Rollout<E>, latestAllowed: nat): Option<Event<E>> {
    var c := Candidate(file, latestAllowed);
    if c.Some? && (found.None? || c.value.at > found.value.at) then c else found
  }

  predicate Stops<E>(found: Option<Event<E>>, file: Rollout<E>) {
    found.Some? && SaturatingAdd(file.modifiedAt, TOLERANCE_MS) < found.value.at
  }

  function ScanFrom<E>(files: seq<Rollout<E>>, latestAllowed: nat, found: Option<Event<E>>): Option<Event<E>> {
    if files == [] || Stops(found, files[0]) then found
    else ScanFrom(files[1..], latestAllowed, Best(found, files[0], latestAllowed))
  }

  method CollectCodex<E>(found: seq<Rollout<E>>, nowMs: nat) returns (newest: Option<Event<E>>)
    ensures newest == ScanFrom(SortNewestFirst(found), LatestAllowed(nowMs), None)
    ensures var files, latestAllowed := SortNewestFirst(found), LatestAllowed(nowMs);
            && (IsNewest(files, latestAllowed, newest) <==> WinnerInReach(files, latestAllowed))
            && (Timely(found, latestAllowed) ==> IsNewest(files, latestAllowed, newest))
  {
    var files := SortNewestFirst(found);
    var latestAllowed := LatestAllowed(nowMs);
    newest := None;
    var n := 0;
    while n < |files|
      invariant n <= |files|
      invariant ScanFrom(files, latestAllowed, None) == ScanFrom(files[n..], latestAllowed, newest)
    {
      var file := files[n];
      assert files[n..][0] == file && files[n..][1..] == files[n + 1..];
      if newest.Some? && SaturatingAdd(file.modifiedAt, TOLERANCE_MS) < newest.value.at {
        break;
      }
      n := n + 1;
      if file.modifiedAt > latestAllowed || !file.versioned {
        continue;
      }
      if file.event.None? {
        continue;
      }
      var event := file.event.value;
      if event.at > latestAllowed || event.entries == [] {
        continue;
      }
      if newest.None? || event.at > newest.value.at {
        newest := Some(event);
      }
    }
    assert newest == ScanFrom(files, latestAllowed, None);
    SortSorts(found);
    SameMembers(files, found);
    EarlyExitIsExact(files, latestAllowed);
    if Timely(found, latestAllowed) {
      EarlyExitIsSafe(files, latestAllowed);
    }
  }

  lemma SameMembers<E>(a: seq<Rollout<E>>, b: seq<Rollout<E>>)
    requires multiset(a) == multiset(b)
    ensures forall f :: f in a <==> f in b
  {
    assert forall f :: f in a <==> f in multiset(a);
  }

  // ----- When the early exit skips only losers -----

  /** The scan without its early exit. */
  function FullScan<E>(files: seq<Rollout<E>>, latestAllowed: nat): Option<Event<E>> {
    if files == [] then None
    else Best(FullScan(files[..|files| - 1], latestAllowed), files[|files| - 1], latestAllowed)
  }

  lemma {:induction false} FullScanIsNewest<E>(files: seq<Rollout<E>>, latestAllowed: nat)
    ensures IsNewest(files, latestAllowed, FullScan(files, latestAllowed))
  {
    if files != [] {
      var n := |files| - 1;
      FullScanIsNewest(files[..n], latestAllowed);
      NewestOfOneMore(files, n, latestAllowed, FullScan(files[..n], latestAllowed));
      assert files[..n + 1] == files;
    }
  }

  lemma NewestOfOneMore<E>(files: seq<Rollout<E>>, n: nat, latestAllowed: nat, found: Option<Event<E>>)
    requires n < |files| && IsNewest(files[..n], latestAllowed, found)
    ensures IsNewest(files[..n + 1], latestAllowed, Best(found, files[n], latestAllowed))
  {
    var shorter, longer := files[..n], files[..n + 1];
    assert longer == shorter + [files[n]];
    var best := Best(found, files[n], latestAllowed);
    if best == found && found.Some? {
      var i :| Wins(shorter, latestAllowed, i) && shorter[i].event == found;
      assert Wins(longer, latestAllowed, i);
    } else if best.Some? {
      assert Wins(longer, latestAllowed, n);
    }
  }

  /** No eligible file before `w` has an event later than `w`'s modification time plus the
      tolerance. */
  ghost predicate InReach<E>(files: seq<Rollout<E>>, latestAllowed: nat, w: int)
    requires 0 <= w < |files|
  {
    forall i :: 0 <= i < w && Candidate(files[i], latestAllowed).Some? ==>
      files[i].event.value.at <= SaturatingAdd(files[w].modifiedAt, TOLERANCE_MS)
  }

  /** If a file wins, it is in reach. */
  ghost predicate WinnerInReach<E>(files: seq<Rollout<E>>, latestAllowed: nat) {
    forall w :: Wins(files, latestAllowed, w) ==> InReach(files, latestAllowed, w)
  }

  /** Once nothing later beats what was found, the scan ends with it. */
  lemma {:induction false} ScanKeeps<E>(files: seq<Rollout<E>>, latestAllowed: nat, found: Option<Event<E>>)
    requires found.Some?
    requires forall f <- files :: Candidate(f, latestAllowed).Some? ==> f.event.value.at <= found.value.at
    ensures ScanFrom(files, latestAllowed, found) == found
  {
    if files != [] && !Stops(found, files[0]) {
      assert files[0] in files;
      ScanKeeps(files[1..], latestAllowed, found);
    }
  }

  /** What the files before the winner yield is strictly older, and stops the scan before any
      file up to the winner only if the winner is out of reach. */
  lemma BeforeWinner<E>(files: seq<Rollout<E>>, n: nat, w: nat, latestAllowed: nat)
    requires NewestFirst(files) && n <= w && Wins(files, latestAllowed, w)
    ensures var found := FullScan(files[..n], latestAllowed);
            && (found.Some? ==> found.value.at < files[w].event.value.at)
            && (InReach(files, latestAllowed, w) ==> !Stops(found, files[n]))
            && (n == w && !InReach(files, latestAllowed, w) ==> Stops(found, files[w]))
  {
    var found := FullScan(files[..n], latestAllowed);
    FullScanIsNewest(files[..n], latestAllowed);
    assert files[n].modifiedAt >= files[w].modifiedAt;
    hide FullScan;
    if found.Some? {
      var i :| Wins(files[..n], latestAllowed, i) && files[..n][i].event == found;
      assert files[..n][i] == files[i];
    }
    if n == w && !InReach(files, latestAllowed, w) {
      var i :| 0 <= i < w && Candidate(files[i], latestAllowed).Some?
               && files[i].event.value.at > SaturatingAdd(files[w].modifiedAt, TOLERANCE_MS);
      assert files[..n][i] == files[i];
    }
  }

  /** From any point before the winner that it gets to, the scan ends with the winner exactly
      when the winner is in reach. */
  lemma {:induction false} ScanToWinner<E>(files: seq<Rollout<E>>, n: nat, w: nat, latestAllowed: nat)
    requires NewestFirst(files) && n <= w && Wins(files, latestAllowed, w)
    ensures ScanFrom(files[n..], latestAllowed, FullScan(files[..n], latestAllowed)) == files[w].event
            <==> InReach(files, latestAllowed, w)
    decreases w - n
  {
    var found := FullScan(files[..n], latestAllowed);
    BeforeWinner(files, n, w, latestAllowed);
    assert files[n..][0] == files[n] && files[n..][1..] == files[n + 1..];
    if !Stops(found, files[n]) {
      assert files[..n + 1][..n] == files[..n];
      if n < w {
        ScanToWinner(files, n + 1, w, latestAllowed);
      } else {
        ScanKeeps(files[w + 1..], latestAllowed, files[w].event);
      }
    }
  }

  /** Stopping early selects what a full scan selects exactly when the winner, if any, is in
      reach. */
  lemma EarlyExitIsExact<E>(files: seq<Rollout<E>>, latestAllowed: nat)
    requires NewestFirst(files)
    ensures IsNewest(files, latestAllowed, FullScan(files, latestAllowed))
    ensures IsNewest(files, latestAllowed, ScanFrom(files, latestAllowed, None))
            <==> WinnerInReach(files, latestAllowed)
  {
    FullScanIsNewest(files, latestAllowed);
    var found := ScanFrom(files, latestAllowed, None);
    if w :| Wins(files, latestAllowed, w) {
      assert files[..0] == [] && files[0..] == files;
      ScanToWinner(files, 0, w, latestAllowed);
      assert forall v :: Wins(files, latestAllowed, v) ==> v == w;
    } else {
      NothingToFind(files, latestAllowed);
    }
  }

  lemma {:induction false} NothingToFind<E>(files: seq<Rollout<E>>, latestAllowed: nat)
    requires forall f <- files :: Candidate(f, latestAllowed).None?
    ensures ScanFrom(files, latestAllowed, None) == None
  {
    if files != [] {
      assert files[0] in files;
      NothingToFind(files[1..], latestAllowed);
    }
  }

  /** Where events are timely, stopping early selects what a full scan selects. */
  lemma EarlyExitIsSafe<E>(files: seq<Rollout<E>>, latestAllowed: nat)
    requires NewestFirst(files) && Timely(files, latestAllowed)
    ensures IsNewest(files, latestAllowed, ScanFrom(files, latestAllowed, None))
  {
    EarlyExitIsExact(files, latestAllowed);
    forall w, i | Wins(files, latestAllowed, w) && 0 <= i < w && Candidate(files[i], latestAllowed).Some?
      ensures files[i].event.value.at <= SaturatingAdd(files[w].modifiedAt, TOLERANCE_MS)
    {
      assert files[w] in files;
    }
  }

  /** A winner can be out of reach: here an event postdates its own file's modification time by
      more than the tolerance, and the file is passed over. */
  lemma LateEventIsMissed()
    ensures var a := Rollout("a", 400_000, true, Some(Event(400_000, [1])));
            var b := Rollout("b", 300_000, true, Some(Event(500_000, [2])));
            && NewestFirst([a, b]) && !Timely([a, b], 600_000) && !WinnerInReach([a, b], 600_000)
            && ScanFrom([a, b], 600_000, None) == a.event
            && !IsNewest([a, b], 600_000, a.event)
  {
    PassedOver(Rollout("a", 400_000, true, Some(Event(400_000, [1]))),
               Rollout("b", 300_000, true, Some(Event(500_000, [2]))), 600_000);
  }

  lemma PassedOver<E>(a: Rollout<E>, b: Rollout<E>, latestAllowed: nat)
    requires Candidate(a, latestAllowed).Some? && Candidate(b, latestAllowed).Some?
    requires a.modifiedAt >= b.modifiedAt && a.event.value.at < b.event.value.at
    requires SaturatingAdd(b.modifiedAt, TOLERANCE_MS) < a.event.value.at
    ensures NewestFirst([a, b]) && !Timely([a, b], latestAllowed) && !WinnerInReach([a, b], latestAllowed)
    ensures ScanFrom([a, b], latestAllowed, None) == a.event && !IsNewest([a, b], latestAllowed, a.event)
  {
    var files := [a, b];
    assert files[0] == a && files[1] == b && files[1..] == [b];
    assert b in files;
    assert Wins(files, latestAllowed, 1) && !InReach(files, latestAllowed, 1);
    assert ScanFrom([b], latestAllowed, a.event) == a.event;
    hide Candidate, ScanFrom;
    EarlyExitIsExact(files, latestAllowed);
  }

  // ----- What is found, told from the files as found -----

  /** A file that counts: its header names a version, and it has an event with entries; neither it nor
      the event is more than five minutes ahead. */
  predicate Eligible<E>(file: Rollout<E>, nowMs: nat) {
    && file.versioned && file.event.Some? && file.event.value.entries != []
    && file.modifiedAt <= nowMs + 300_000 && file.event.value.at <= nowMs + 300_000
    && file.modifiedAt <= U64_MAX && file.event.value.at <= U64_MAX
  }

  /** The scan found `e`: no event of `files` is newer, those of files modified more than a minute before
      it aside. */
  ghost predicate Outlasts<E>(files: seq<Rollout<E>>, latestAllowed: nat, e: Event<E>) {
    forall f <- files :: Candidate(f, latestAllowed).Some? ==>
      f.event.value.at <= e.at || SaturatingAdd(f.modifiedAt, 60_000) < e.at
  }

  lemma {:induction false} ScanFinds<E>(files: seq<Rollout<E>>, latestAllowed: nat, found: Option<Event<E>>)
    requires NewestFirst(files)
    ensures var r := ScanFrom(files, latestAllowed, found);
            && (r.None? <==> found.None? && forall f <- files :: Candidate(f, latestAllowed).None?)
            && (r.Some? ==> Outlasts(files, latestAllowed, r.value))
            && (r.Some? && r != found ==> exists f <- files :: Candidate(f, latestAllowed) == r)
            && (found.Some? ==> r.Some? && found.value.at <= r.value.at)
  {
    if files != [] {
      var file, rest := files[0], files[1..];
      assert files == [file] + rest;
      if Stops(found, file) {
        assert forall f <- files :: f.modifiedAt <= file.modifiedAt;
      } else {
        ScanFinds(rest, latestAllowed, Best(found, file, latestAllowed));
        assert file in files;
        hide ScanFrom, Stops, NewestFirst;
        assert forall f :: f in files <==> f == file || f in rest;
      }
    }
  }

  /** Whatever order the files are found in, the scan finds nothing exactly when no file counts, and
      otherwise the event of a file that counts, than which no other's is newer, but for files modified
      more than a minute before it. */
  lemma ScanMeans<E>(found: seq<Rollout<E>>, nowMs: nat)
    ensures var newest := ScanFrom(SortNewestFirst(found), LatestAllowed(nowMs), None);
            && (newest.None? <==> forall f <- found :: !Eligible(f, nowMs))
            && (newest.Some? ==>
                  && (exists f <- found :: Eligible(f, nowMs) && f.event == newest)
                  && (forall f <- found :: Eligible(f, nowMs) ==>
                        f.event.value.at <= newest.value.at || f.modifiedAt + 60_000 < newest.value.at))
  {
    var files, latestAllowed := SortNewestFirst(found), LatestAllowed(nowMs);
    SortSorts(found);
    SameMembers(files, found);
    ScanFinds(files, latestAllowed, None);
    forall f: Rollout<E>
      ensures Candidate(f, latestAllowed).Some? <==> Eligible(f, nowMs)
      ensures Candidate(f, latestAllowed).Some? ==> Candidate(f, latestAllowed) == f.event
    {
    }
    hide ScanFrom, SortNewestFirst, NewestFirst, Candidate, LatestAllowed;
  }
}
