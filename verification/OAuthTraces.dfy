/** What a call of `refresh_claude_oauth` does next, told from what it did so far, and what it
    returns, told from all it did. */
module OAuthTraces {
  import opened Options
  import opened OAuthRefresh

  // ----- Reading a trace -----

  function Last(trace: seq<Effect>): Effect
    requires trace != []
  {
    trace[|trace| - 1]
  }

  function Before(trace: seq<Effect>): seq<Effect>
    requires trace != []
  {
    trace[..|trace| - 1]
  }

  predicate EndsWith(trace: seq<Effect>, e: Effect) {
    trace != [] && Last(trace) == e
  }

  function CountChecked(trace: seq<Effect>): nat {
    if trace == [] then 0 else CountChecked(Before(trace)) + if Last(trace).Checked? then 1 else 0
  }

  function CountLooked(trace: seq<Effect>): nat {
    if trace == [] then 0 else CountLooked(Before(trace)) + if Last(trace).Looked? then 1 else 0
  }

  function CountFetched(trace: seq<Effect>): nat {
    if trace == [] then 0 else CountFetched(Before(trace)) + if Last(trace).Fetched? then 1 else 0
  }

  predicate HasLooked(trace: seq<Effect>) {
    exists e :: e in trace && e.Looked?
  }

  predicate HasFetched(trace: seq<Effect>) {
    exists e :: e in trace && e.Fetched?
  }

  predicate Tried(trace: seq<Effect>, token: string) {
    exists e :: e in trace && e.Fetched? && e.token == token
  }

  /** A look that found a credential with at most four minutes left. */
  predicate FindsExpiring(e: Effect, nowMs: nat) {
    && e.Looked? && e.found.Some? && e.found.value.expiresAt.Some?
    && e.found.value.expiresAt.value <= nowMs + 240_000 && e.found.value.expiresAt.value <= U64_MAX
  }

  predicate FoundExpiring(trace: seq<Effect>, nowMs: nat) {
    exists e :: e in trace && FindsExpiring(e, nowMs)
  }

  // ----- What comes next -----

  /** The call needs a new credential: its first look found none, it found an expiring one for the
      first time, or its first fetch got a 401. */
  predicate Wanting(trace: seq<Effect>, nowMs: nat) {
    && trace != [] && !HasFetched(Before(trace))
    && (|| (Last(trace) == Looked(None) && !HasLooked(Before(trace)))
        || (FindsExpiring(Last(trace), nowMs) && !FoundExpiring(Before(trace), nowMs))
        || (Last(trace).Fetched? && Last(trace).reply == Unauthorized))
  }

  /** The refresh cooldown is over: the one an earlier call left, and this call's own, which ends
      only where the clock does. */
  predicate MayRenew(trace: seq<Effect>, start: Progress, nowMs: nat) {
    if Renewed in trace then U64_MAX <= nowMs else start.refreshAfter <= nowMs
  }

  /** The call just found a credential it has not tried, and needs no newer one. */
  predicate Usable(trace: seq<Effect>, nowMs: nat) {
    && trace != [] && Last(trace).Looked? && Last(trace).found.Some? && !Wanting(trace, nowMs)
    && !Tried(trace, Last(trace).found.value.token)
  }

  predicate Answered(trace: seq<Effect>, reply: Reply) {
    trace != [] && Last(trace).Fetched? && Last(trace).reply == reply
  }

  /** The check before renewing an expiring credential failed: the call still holds it. */
  predicate KeepsExpiring(trace: seq<Effect>, nowMs: nat) {
    EndsWith(trace, Checked(true)) && Before(trace) != [] && FindsExpiring(Last(Before(trace)), nowMs)
    && Wanting(Before(trace), nowMs)
  }

  /** The last thing the call did was a check that passed. */
  predicate Passed(trace: seq<Effect>) {
    EndsWith(trace, Checked(false))
  }

  /** `next` is what the call does after `trace`: None where it returns. */
  ghost predicate Follows(start: Progress, w: World, nowMs: nat, trace: seq<Effect>, next: Option<Effect>) {
    && (next == Some(Renewed)
        <==> Passed(trace) && Wanting(Before(trace), nowMs) && MayRenew(Before(trace), start, nowMs))
    && (next.Some? && next.value.Fetched? <==> Passed(trace) && Usable(Before(trace), nowMs))
    && (next == Some(Wrote) <==> Passed(trace) && Answered(Before(trace), Windows))
    && (next.Some? && next.value.Looked? <==>
          || (trace == [Checked(false)] && start.retryAfter <= nowMs)
          || (Wanting(trace, nowMs) && !MayRenew(trace, start, nowMs))
          || EndsWith(trace, Renewed))
    && (next.Some? && next.value.Checked? <==>
          || trace == [] || (Wanting(trace, nowMs) && MayRenew(trace, start, nowMs)) || Usable(trace, nowMs)
          || Answered(trace, Windows) || KeepsExpiring(trace, nowMs))
    && (next.Some? ==> FromWorld(w, trace, next.value))
  }

  /** What an effect carries is what the world answers at that point; a fetch uses the credential
      found last. */
  predicate FromWorld(w: World, trace: seq<Effect>, e: Effect) {
    match e
    case Checked(abandoned) => abandoned <==> w.abandonedFrom <= CountChecked(trace)
    case Looked(found) => found == w.credentials(CountLooked(trace))
    case Fetched(token, reply) =>
      && reply == w.replies(CountFetched(trace)) && trace != [] && Before(trace) != []
      && Last(Before(trace)).Looked? && Last(Before(trace)).found.Some?
      && Last(Before(trace)).found.value.token == token
    case _ => true
  }

  // ----- What a call returns -----

  predicate NothingHeld(trace: seq<Effect>) {
    EndsWith(trace, Looked(None)) || Answered(trace, Unauthorized)
  }

  /** The outcome of a call, by how its trace ends. */
  ghost predicate Verdict(trace: seq<Effect>, outcome: Outcome) {
    && (outcome == Refreshed <==> EndsWith(trace, Wrote))
    && (outcome == Unsupported <==> Answered(trace, NoWindows))
    && (outcome == Error <==> Answered(trace, Failed))
    && (outcome == CoolingDown <==> trace == [Checked(false)] || Answered(trace, RateLimited))
    && (outcome == Rejected <==>
          Answered(trace, Unauthorized) || (trace != [] && Last(trace).Looked? && Last(trace).found.Some?))
    && (outcome == Unavailable <==>
          EndsWith(trace, Looked(None)) || (EndsWith(trace, Checked(true)) && NothingHeld(Before(trace))))
    && (outcome == Abandoned <==> EndsWith(trace, Checked(true)) && !NothingHeld(Before(trace)))
  }

  /** The credential after a trace: the one found last, and none after a 401. */
  function Held(credential: Option<Credential>, trace: seq<Effect>): Option<Credential> {
    if trace == [] then credential
    else
      match Last(trace)
      case Looked(found) => found
      case Fetched(_, Unauthorized) => None
      case _ => Held(credential, Before(trace))
  }

  /** The fields a call leaves. */
  ghost predicate Leaves(start: Progress, nowMs: nat, p: Progress, outcome: Outcome) {
    && p.credential == (if outcome == Rejected then None else Held(start.credential, p.effects))
    && p.retryAfter == (if Answered(p.effects, RateLimited) then SaturatingAdd(nowMs, 60_000) else start.retryAfter)
    && p.refreshAfter == (if Renewed in p.effects then SaturatingAdd(nowMs, 60_000) else start.refreshAfter)
  }

  // ----- Extending a trace -----

  lemma Snoc(trace: seq<Effect>, e: Effect, nowMs: nat)
    ensures var t := trace + [e];
            && Last(t) == e && Before(t) == trace
            && CountChecked(t) == CountChecked(trace) + (if e.Checked? then 1 else 0)
            && CountLooked(t) == CountLooked(trace) + (if e.Looked? then 1 else 0)
            && CountFetched(t) == CountFetched(trace) + (if e.Fetched? then 1 else 0)
            && (HasLooked(t) <==> HasLooked(trace) || e.Looked?)
            && (HasFetched(t) <==> HasFetched(trace) || e.Fetched?)
            && (FoundExpiring(t, nowMs) <==> FoundExpiring(trace, nowMs) || FindsExpiring(e, nowMs))
            && (Renewed in t <==> Renewed in trace || e == Renewed)
  {
    hide FindsExpiring, CountChecked, CountLooked, CountFetched;
    SnocCounts(trace, e);
    assert e in trace + [e] && forall x :: x in trace + [e] <==> x in trace || x == e;
  }

  lemma SnocCounts(trace: seq<Effect>, e: Effect)
    ensures var t := trace + [e];
            && CountChecked(t) == CountChecked(trace) + (if e.Checked? then 1 else 0)
            && CountLooked(t) == CountLooked(trace) + (if e.Looked? then 1 else 0)
            && CountFetched(t) == CountFetched(trace) + (if e.Fetched? then 1 else 0)
  {
    assert Before(trace + [e]) == trace;
  }

  lemma SnocTried(trace: seq<Effect>, e: Effect, token: string)
    ensures Tried(trace + [e], token) <==> Tried(trace, token) || (e.Fetched? && e.token == token)
  {
    assert e in trace + [e] && forall x :: x in trace + [e] <==> x in trace || x == e;
  }

  /** Every effect so far followed from those before it. */
  ghost predicate Lawful(start: Progress, w: World, nowMs: nat, trace: seq<Effect>) {
    forall k :: 0 <= k < |trace| ==> Follows(start, w, nowMs, trace[..k], Some(trace[k]))
  }

  lemma LawfulSnoc(start: Progress, w: World, nowMs: nat, trace: seq<Effect>, e: Effect)
    requires Lawful(start, w, nowMs, trace) && Follows(start, w, nowMs, trace, Some(e))
    ensures Lawful(start, w, nowMs, trace + [e])
  {
    hide Follows;
    var t := trace + [e];
    forall k | 0 <= k < |t|
      ensures Follows(start, w, nowMs, t[..k], Some(t[k]))
    {
      assert t[..k] == trace[..k];
      assert trace[..|trace|] == trace;
    }
  }

  // ----- What follows, situation by situation -----

  lemma CheckFollows(start: Progress, w: World, nowMs: nat, trace: seq<Effect>)
    requires || trace == [] || (Wanting(trace, nowMs) && MayRenew(trace, start, nowMs)) || Usable(trace, nowMs)
             || Answered(trace, Windows) || KeepsExpiring(trace, nowMs)
    ensures Follows(start, w, nowMs, trace, Some(Checked(w.abandonedFrom <= CountChecked(trace))))
  {
    hide HasLooked, HasFetched, FoundExpiring, Tried;
  }

  lemma LookFollows(start: Progress, w: World, nowMs: nat, trace: seq<Effect>)
    requires || (trace == [Checked(false)] && start.retryAfter <= nowMs) || EndsWith(trace, Renewed)
             || (Wanting(trace, nowMs) && !MayRenew(trace, start, nowMs))
    ensures Follows(start, w, nowMs, trace, Some(Looked(w.credentials(CountLooked(trace)))))
  {
    hide HasLooked, HasFetched, FoundExpiring, Tried;
    assert trace == [Checked(false)] ==> Before(trace) == [];
  }

  lemma RenewFollows(start: Progress, w: World, nowMs: nat, trace: seq<Effect>)
    requires Passed(trace) && Wanting(Before(trace), nowMs) && MayRenew(Before(trace), start, nowMs)
    ensures Follows(start, w, nowMs, trace, Some(Renewed))
  {
    hide HasLooked, HasFetched, FoundExpiring, Tried;
  }

  lemma FetchFollows(start: Progress, w: World, nowMs: nat, trace: seq<Effect>)
    requires Passed(trace) && Usable(Before(trace), nowMs)
    ensures var token := Last(Before(trace)).found.value.token;
            Follows(start, w, nowMs, trace, Some(Fetched(token, w.replies(CountFetched(trace)))))
  {
    hide HasLooked, HasFetched, FoundExpiring, Tried;
  }

  lemma WriteFollows(start: Progress, w: World, nowMs: nat, trace: seq<Effect>)
    requires Passed(trace) && Answered(Before(trace), Windows)
    ensures Follows(start, w, nowMs, trace, Some(Wrote))
  {
    hide HasLooked, HasFetched, FoundExpiring, Tried;
  }

  /** Nothing follows where nothing is wanted, usable, to be written or to be checked again. */
  lemma NothingFollows(start: Progress, w: World, nowMs: nat, trace: seq<Effect>)
    requires trace != [] && (Passed(trace) ==> trace == [Checked(false)] && nowMs < start.retryAfter)
    requires !EndsWith(trace, Renewed) && !Answered(trace, Windows) && !KeepsExpiring(trace, nowMs)
    requires !Wanting(trace, nowMs) && !Usable(trace, nowMs)
    ensures Follows(start, w, nowMs, trace, None)
  {
    hide HasLooked, HasFetched, FoundExpiring, Tried;
    assert trace == [Checked(false)] ==> Before(trace) == [];
  }

  /** A failed check is followed by failed checks. */
  lemma AbandonedStays(start: Progress, w: World, nowMs: nat, trace: seq<Effect>)
    requires Lawful(start, w, nowMs, trace) && EndsWith(trace, Checked(true))
    ensures w.abandonedFrom <= CountChecked(Before(trace)) < CountChecked(trace)
  {
    hide Wanting, Usable, KeepsExpiring;
    assert Follows(start, w, nowMs, Before(trace), Some(Last(trace)));
  }

  // ----- The call, step by step -----

  /** The record of the call, its counters and its refresh cooldown agree. */
  ghost predicate Tracks(p: Progress, start: Progress, w: World, nowMs: nat) {
    && Lawful(start, w, nowMs, p.effects)
    && p.checks == CountChecked(p.effects) && p.lookups == CountLooked(p.effects)
    && p.fetches == CountFetched(p.effects) && p.retryAfter == start.retryAfter
    && p.refreshAfter == (if Renewed in p.effects then SaturatingAdd(nowMs, 60_000) else start.refreshAfter)
  }

  lemma CheckTracks(p: Progress, start: Progress, w: World, nowMs: nat)
    requires Tracks(p, start, w, nowMs)
    requires Follows(start, w, nowMs, p.effects, Some(Checked(w.abandonedFrom <= CountChecked(p.effects))))
    ensures Tracks(Check(p, w), start, w, nowMs)
    ensures Check(p, w) == p.(effects := p.effects + [Checked(w.abandonedFrom <= p.checks)], checks := p.checks + 1)
    ensures LastCheckFailed(Check(p, w)) <==> w.abandonedFrom <= p.checks
  {
    hide Follows, Lawful;
    var e := Checked(w.abandonedFrom <= p.checks);
    LawfulSnoc(start, w, nowMs, p.effects, e);
    Snoc(p.effects, e, nowMs);
  }

  lemma LookTracks(p: Progress, start: Progress, w: World, nowMs: nat)
    requires Tracks(p, start, w, nowMs)
    requires Follows(start, w, nowMs, p.effects, Some(Looked(w.credentials(CountLooked(p.effects)))))
    ensures Tracks(ReadCredential(p, w), start, w, nowMs)
    ensures var q := ReadCredential(p, w);
            q.effects == p.effects + [Looked(q.credential)] && q == p.(credential := q.credential, effects := q.effects,
                                                                      lookups := q.lookups)
  {
    hide Follows, Lawful;
    LawfulSnoc(start, w, nowMs, p.effects, Looked(w.credentials(p.lookups)));
    Snoc(p.effects, Looked(w.credentials(p.lookups)), nowMs);
  }

  function Started(p: Progress, nowMs: nat): Progress {
    p.(refreshAfter := SaturatingAdd(nowMs, REFRESH_COOLDOWN_MS), effects := p.effects + [Renewed])
  }

  lemma StartedTracks(p: Progress, start: Progress, w: World, nowMs: nat)
    requires Tracks(p, start, w, nowMs) && Follows(start, w, nowMs, p.effects, Some(Renewed))
    ensures Tracks(Started(p, nowMs), start, w, nowMs)
  {
    hide Follows, Lawful;
    LawfulSnoc(start, w, nowMs, p.effects, Renewed);
    Snoc(p.effects, Renewed, nowMs);
  }

  lemma FetchTracks(p: Progress, start: Progress, w: World, nowMs: nat)
    requires Tracks(p, start, w, nowMs) && Passed(p.effects) && Usable(Before(p.effects), nowMs)
    requires p.credential == Last(Before(p.effects)).found
    ensures Tracks(Fetch(p, w), start, w, nowMs)
    ensures Fetch(p, w).effects == p.effects + [Fetched(p.credential.value.token, w.replies(p.fetches))]
    ensures Last(Fetch(p, w).effects) == Fetched(p.credential.value.token, w.replies(p.fetches))
    ensures Before(Fetch(p, w).effects) == p.effects
  {
    hide Follows, Lawful;
    FetchFollows(start, w, nowMs, p.effects);
    var e := Fetched(p.credential.value.token, w.replies(p.fetches));
    LawfulSnoc(start, w, nowMs, p.effects, e);
    Snoc(p.effects, e, nowMs);
  }

  /** What the trace held before its last look is what `trace` held, renewals aside. */
  ghost predicate LooksAgain(trace: seq<Effect>, out: seq<Effect>, found: Option<Credential>, nowMs: nat) {
    && EndsWith(out, Looked(found))
    && (HasLooked(Before(out)) <==> HasLooked(trace)) && (HasFetched(Before(out)) <==> HasFetched(trace))
    && (FoundExpiring(Before(out), nowMs) <==> FoundExpiring(trace, nowMs))
    && (forall token :: Tried(Before(out), token) <==> Tried(trace, token))
  }

  lemma LooksAtOnce(trace: seq<Effect>, found: Option<Credential>, nowMs: nat)
    ensures LooksAgain(trace, trace + [Looked(found)], found, nowMs)
  {
    hide HasLooked, HasFetched, FoundExpiring, Tried;
    Snoc(trace, Looked(found), nowMs);
  }

  lemma LooksAfterRenewal(trace: seq<Effect>, found: Option<Credential>, nowMs: nat)
    ensures LooksAgain(trace, trace + [Checked(false)] + [Renewed] + [Looked(found)], found, nowMs)
  {
    hide HasLooked, HasFetched, FoundExpiring, Tried;
    Snoc(trace, Checked(false), nowMs);
    Snoc(trace + [Checked(false)], Renewed, nowMs);
    Snoc(trace + [Checked(false)] + [Renewed], Looked(found), nowMs);
    forall token: string
      ensures Tried(trace + [Checked(false)] + [Renewed], token) <==> Tried(trace, token)
    {
      SnocTried(trace, Checked(false), token);
      SnocTried(trace + [Checked(false)], Renewed, token);
    }
  }

  lemma RenewTracks(p: Progress, start: Progress, w: World, nowMs: nat)
    requires Tracks(p, start, w, nowMs) && Wanting(p.effects, nowMs)
    ensures var q := Renew(p, w, nowMs);
            && Tracks(q, start, w, nowMs)
            && (|| LooksAgain(p.effects, q.effects, q.credential, nowMs)
                || (q.effects == p.effects + [Checked(true)] && q.credential == p.credential))
  {
    hide Follows, Lawful, Wanting, LooksAgain;
    assert p.refreshAfter <= nowMs <==> MayRenew(p.effects, start, nowMs);
    if nowMs < p.refreshAfter {
      LookFollows(start, w, nowMs, p.effects);
      LookTracks(p, start, w, nowMs);
      LooksAtOnce(p.effects, ReadCredential(p, w).credential, nowMs);
    } else {
      CheckFollows(start, w, nowMs, p.effects);
      CheckTracks(p, start, w, nowMs);
      var checked := Check(p, w);
      if !LastCheckFailed(checked) {
        Snoc(p.effects, Checked(false), nowMs);
        RenewFollows(start, w, nowMs, checked.effects);
        StartedTracks(checked, start, w, nowMs);
        var started := Started(checked, nowMs);
        Snoc(checked.effects, Renewed, nowMs);
        LookFollows(start, w, nowMs, started.effects);
        LookTracks(started, start, w, nowMs);
        LooksAfterRenewal(p.effects, ReadCredential(started, w).credential, nowMs);
      }
    }
  }

  lemma ExpiringIsFound(c: Credential, nowMs: nat)
    ensures ShouldRefresh(c, nowMs) <==> FindsExpiring(Looked(Some(c)), nowMs)
  {
  }

  lemma UntriedUnfetched(trace: seq<Effect>, token: string)
    ensures Tried(trace, token) ==> HasFetched(trace)
  {
  }

  /** What a renewal wanted after `trace` may leave. */
  ghost predicate Renews(trace: seq<Effect>, out: seq<Effect>, initial: Option<Credential>,
                         credential: Option<Credential>, nowMs: nat) {
    || LooksAgain(trace, out, credential, nowMs)
    || (out == trace + [Checked(true)] && credential == Held(initial, trace))
  }

  /** How discovery ends: with a credential to fetch with, with an expiring one whose renewal was
      abandoned, or with none. */
  ghost predicate Discovered(trace: seq<Effect>, initial: Option<Credential>, credential: Option<Credential>,
                             nowMs: nat) {
    && trace != [] && Held(initial, trace) == credential
    && if credential.Some? then
         !HasFetched(trace) && (Usable(trace, nowMs) || KeepsExpiring(trace, nowMs))
       else
         || (EndsWith(trace, Looked(None)) && !Wanting(trace, nowMs))
         || (EndsWith(trace, Checked(true)) && EndsWith(Before(trace), Looked(None)))
  }

  lemma FirstLook(initial: Option<Credential>, found: Option<Credential>, nowMs: nat)
    ensures var trace := [Checked(false), Looked(found)];
            && EndsWith(trace, Looked(found)) && Before(trace) == [Checked(false)] && Held(initial, trace) == found
            && !HasFetched(trace) && HasLooked(trace) && !HasLooked(Before(trace))
            && !FoundExpiring(Before(trace), nowMs)
            && (FoundExpiring(trace, nowMs) <==> FindsExpiring(Looked(found), nowMs))
            && (Wanting(trace, nowMs) <==> found.None? || ShouldRefresh(found.value, nowMs))
  {
    var trace := [Checked(false), Looked(found)];
    assert Looked(found) in trace;
  }

  lemma FirstIsUsable(initial: Option<Credential>, found: Credential, nowMs: nat)
    requires !ShouldRefresh(found, nowMs)
    ensures Discovered([Checked(false), Looked(Some(found))], initial, Some(found), nowMs)
  {
    var trace := [Checked(false), Looked(Some(found))];
    FirstLook(initial, Some(found), nowMs);
    UntriedUnfetched(trace, found.token);
  }

  /** A second look that finds an expiring credential for the first time. */
  lemma NowExpiring(trace: seq<Effect>, out: seq<Effect>, initial: Option<Credential>, found: Credential, nowMs: nat)
    requires Renews(trace, out, initial, Some(found), nowMs) && Held(initial, trace) == None
    requires !HasFetched(trace) && !FoundExpiring(trace, nowMs) && ShouldRefresh(found, nowMs)
    ensures EndsWith(out, Looked(Some(found))) && Wanting(out, nowMs) && !HasFetched(out)
  {
    hide HasLooked, FoundExpiring, Tried;
    assert out == Before(out) + [Last(out)];
    Snoc(Before(out), Last(out), nowMs);
  }

  /** A look after an expiring credential is the last one before the fetch. */
  lemma RenewedExpiring(trace: seq<Effect>, out: seq<Effect>, initial: Option<Credential>,
                        credential: Option<Credential>, nowMs: nat)
    requires Renews(trace, out, initial, credential, nowMs) && Wanting(trace, nowMs)
    requires FindsExpiring(Last(trace), nowMs) && !HasFetched(trace)
    ensures Discovered(out, initial, credential, nowMs)
  {
    assert Last(trace) in trace;
    assert HasLooked(trace) && FoundExpiring(trace, nowMs);
    assert out == Before(out) + [Last(out)];
    Snoc(Before(out), Last(out), nowMs);
    if credential.Some? {
      UntriedUnfetched(out, credential.value.token);
    }
    hide HasLooked, HasFetched, FoundExpiring, Tried, FindsExpiring;
    if out == trace + [Checked(true)] {
      assert Before(out) == trace;
    }
  }

  /** A look after a first one that found nothing, and finds nothing that expires. */
  lemma SecondLook(trace: seq<Effect>, out: seq<Effect>, initial: Option<Credential>,
                   credential: Option<Credential>, nowMs: nat)
    requires Renews(trace, out, initial, credential, nowMs) && EndsWith(trace, Looked(None)) && !HasFetched(trace)
    requires credential.Some? ==> !ShouldRefresh(credential.value, nowMs)
    ensures Discovered(out, initial, credential, nowMs)
  {
    assert Last(trace) in trace;
    assert HasLooked(trace);
    assert out == Before(out) + [Last(out)];
    Snoc(Before(out), Last(out), nowMs);
    if credential.Some? {
      ExpiringIsFound(credential.value, nowMs);
      UntriedUnfetched(out, credential.value.token);
    }
    hide HasLooked, HasFetched, FoundExpiring, Tried, FindsExpiring, ShouldRefresh;
    if out == trace + [Checked(true)] {
      assert Before(out) == trace;
    }
  }

  lemma RenewLeaves(p: Progress, start: Progress, w: World, nowMs: nat)
    requires Tracks(p, start, w, nowMs) && Wanting(p.effects, nowMs)
    requires p.credential == Held(start.credential, p.effects)
    ensures Tracks(Renew(p, w, nowMs), start, w, nowMs)
    ensures Renews(p.effects, Renew(p, w, nowMs).effects, start.credential, Renew(p, w, nowMs).credential, nowMs)
  {
    hide Tracks, Wanting, LooksAgain, Renew;
    RenewTracks(p, start, w, nowMs);
  }

  lemma DiscoverTracks(p: Progress, start: Progress, w: World, nowMs: nat)
    requires Tracks(p, start, w, nowMs) && p.effects == [Checked(false)] && start.retryAfter <= nowMs
    ensures Tracks(Discover(p, w, nowMs), start, w, nowMs)
    ensures Discovered(Discover(p, w, nowMs).effects, start.credential, Discover(p, w, nowMs).credential, nowMs)
  {
    hide Tracks, Follows, Wanting, Renews, Renew, ShouldRefresh, HasFetched, HasLooked, FoundExpiring, Discovered;
    LookFollows(start, w, nowMs, p.effects);
    LookTracks(p, start, w, nowMs);
    var read := ReadCredential(p, w);
    FirstLook(start.credential, read.credential, nowMs);
    assert read.effects == [Checked(false), Looked(read.credential)];
    if read.credential.None? {
      RenewLeaves(read, start, w, nowMs);
      var present := Renew(read, w, nowMs);
      if present.credential.Some? && ShouldRefresh(present.credential.value, nowMs) {
        NowExpiring(read.effects, present.effects, start.credential, present.credential.value, nowMs);
        ExpiringIsFound(present.credential.value, nowMs);
        RenewLeaves(present, start, w, nowMs);
        var out := Renew(present, w, nowMs);
        RenewedExpiring(present.effects, out.effects, start.credential, out.credential, nowMs);
      } else {
        SecondLook(read.effects, present.effects, start.credential, present.credential, nowMs);
      }
    } else if ShouldRefresh(read.credential.value, nowMs) {
      ExpiringIsFound(read.credential.value, nowMs);
      RenewLeaves(read, start, w, nowMs);
      var out := Renew(read, w, nowMs);
      RenewedExpiring(read.effects, out.effects, start.credential, out.credential, nowMs);
    } else {
      FirstIsUsable(start.credential, read.credential.value, nowMs);
    }
  }

  // ----- The fetches -----

  /** A finished call: nothing follows its trace, which tells its outcome and the fields it leaves. */
  ghost predicate Ended(start: Progress, w: World, nowMs: nat, p: Progress, outcome: Outcome) {
    && Lawful(start, w, nowMs, p.effects) && Follows(start, w, nowMs, p.effects, None)
    && Verdict(p.effects, outcome) && Leaves(start, nowMs, p, outcome)
  }

  lemma AbandonedEnds(p: Progress, start: Progress, w: World, nowMs: nat)
    requires Tracks(p, start, w, nowMs) && p.credential == Held(start.credential, p.effects)
    requires EndsWith(p.effects, Checked(true)) && !KeepsExpiring(p.effects, nowMs)
    ensures Ended(start, w, nowMs, p, if NothingHeld(Before(p.effects)) then Unavailable else Abandoned)
  {
    hide Lawful, Follows, HasLooked, HasFetched, FoundExpiring, Tried;
    NothingFollows(start, w, nowMs, p.effects);
  }

  lemma FinishEnds(p: Progress, start: Progress, w: World, nowMs: nat, token: string, reply: Reply)
    requires Tracks(p, start, w, nowMs) && EndsWith(p.effects, Fetched(token, reply)) && !Wanting(p.effects, nowMs)
    requires p.credential == Held(start.credential, Before(p.effects))
    ensures Ended(start, w, nowMs, Finish(p, reply, w, nowMs).0, Finish(p, reply, w, nowMs).1)
  {
    hide Ended, Tracks, Wanting, Finish;
    if reply == Windows {
      WindowsEnd(p, start, w, nowMs, token);
    } else {
      OtherReplyEnds(p, start, w, nowMs, token, reply);
    }
  }

  lemma OtherReplyEnds(p: Progress, start: Progress, w: World, nowMs: nat, token: string, reply: Reply)
    requires Tracks(p, start, w, nowMs) && EndsWith(p.effects, Fetched(token, reply)) && !Wanting(p.effects, nowMs)
    requires p.credential == Held(start.credential, Before(p.effects)) && reply != Windows
    ensures Ended(start, w, nowMs, Finish(p, reply, w, nowMs).0, Finish(p, reply, w, nowMs).1)
  {
    hide Follows, Lawful, Wanting;
    NothingFollows(start, w, nowMs, p.effects);
  }

  lemma WindowsEnd(p: Progress, start: Progress, w: World, nowMs: nat, token: string)
    requires Tracks(p, start, w, nowMs) && EndsWith(p.effects, Fetched(token, Windows))
    requires p.credential == Held(start.credential, Before(p.effects))
    ensures Ended(start, w, nowMs, Finish(p, Windows, w, nowMs).0, Finish(p, Windows, w, nowMs).1)
  {
    hide Tracks, Lawful, Follows, Ended, Wanting, Verdict, Leaves, Check, LastCheckFailed;
    CheckFollows(start, w, nowMs, p.effects);
    CheckTracks(p, start, w, nowMs);
    var checked := Check(p, w);
    Snoc(p.effects, Last(checked.effects), nowMs);
    if LastCheckFailed(checked) {
      AbandonedEnds(checked, start, w, nowMs);
    } else {
      WriteFollows(start, w, nowMs, checked.effects);
      WroteEnds(checked, start, w, nowMs);
    }
  }

  lemma WroteEnds(p: Progress, start: Progress, w: World, nowMs: nat)
    requires Tracks(p, start, w, nowMs) && Follows(start, w, nowMs, p.effects, Some(Wrote))
    requires p.credential == Held(start.credential, p.effects)
    ensures Ended(start, w, nowMs, p.(effects := p.effects + [Wrote]), Refreshed)
  {
    hide Lawful, Follows, HasLooked, HasFetched, FoundExpiring, Tried;
    LawfulSnoc(start, w, nowMs, p.effects, Wrote);
    Snoc(p.effects, Wrote, nowMs);
    NothingFollows(start, w, nowMs, p.effects + [Wrote]);
  }

  /** A fetch with a usable credential. */
  lemma FetchOnce(p: Progress, start: Progress, w: World, nowMs: nat)
    requires Tracks(p, start, w, nowMs) && p.credential == Held(start.credential, p.effects)
    requires Usable(p.effects, nowMs) && p.credential.Some?
    ensures var checked := Check(p, w);
            && checked.credential == p.credential
            && if LastCheckFailed(checked) then Ended(start, w, nowMs, checked, Abandoned)
               else
                 && Tracks(Fetch(checked, w), start, w, nowMs)
                 && Fetch(checked, w).effects
                    == p.effects + [Checked(false)] + [Fetched(p.credential.value.token, w.replies(checked.fetches))]
                 && Fetch(checked, w).credential == p.credential
  {
    hide Tracks, Lawful, Follows, Ended, Wanting, LastCheckFailed, Check, HasLooked, HasFetched, FoundExpiring, Tried;
    CheckFollows(start, w, nowMs, p.effects);
    CheckTracks(p, start, w, nowMs);
    var checked := Check(p, w);
    Snoc(p.effects, Checked(w.abandonedFrom <= p.checks), nowMs);
    if LastCheckFailed(checked) {
      AbandonedEnds(checked, start, w, nowMs);
    } else {
      FetchTracks(checked, start, w, nowMs);
    }
  }

  lemma AfterFetch(trace: seq<Effect>, initial: Option<Credential>, token: string, reply: Reply, nowMs: nat)
    requires Held(initial, trace).Some?
    ensures var out := trace + [Checked(false)] + [Fetched(token, reply)];
            && EndsWith(out, Fetched(token, reply)) && Before(out) == trace + [Checked(false)]
            && Held(initial, Before(out)) == Held(initial, trace)
            && (reply == Unauthorized ==> Held(initial, out) == None)
            && (Wanting(out, nowMs) <==> reply == Unauthorized && !HasFetched(trace))
            && HasFetched(out)
            && (forall t :: Tried(out, t) <==> Tried(trace, t) || t == token)
  {
    hide HasLooked, HasFetched, FoundExpiring, Tried;
    Snoc(trace, Checked(false), nowMs);
    Snoc(trace + [Checked(false)], Fetched(token, reply), nowMs);
    forall t: string
      ensures Tried(trace + [Checked(false)] + [Fetched(token, reply)], t) <==> Tried(trace, t) || t == token
    {
      SnocTried(trace, Checked(false), t);
      SnocTried(trace + [Checked(false)], Fetched(token, reply), t);
    }
  }

  /** A look after a 401. */
  lemma LookAfterRefusal(trace: seq<Effect>, out: seq<Effect>, initial: Option<Credential>,
                         credential: Option<Credential>, nowMs: nat)
    requires Renews(trace, out, initial, credential, nowMs) && HasFetched(trace) && Answered(trace, Unauthorized)
    ensures Held(initial, out) == credential
    ensures if EndsWith(out, Looked(credential)) then
              && !Wanting(out, nowMs)
              && (credential.Some? ==> (Usable(out, nowMs) <==> !Tried(trace, credential.value.token)))
            else EndsWith(out, Checked(true)) && credential.None? && Before(out) == trace
    ensures HasFetched(out)
  {
    hide HasLooked, HasFetched, FoundExpiring, FindsExpiring;
    assert out == Before(out) + [Last(out)];
    Snoc(Before(out), Last(out), nowMs);
    if EndsWith(out, Looked(credential)) {
      if credential.Some? {
        SnocTried(Before(out), Last(out), credential.value.token);
      }
    } else {
      assert Before(out) == trace;
    }
  }

  lemma RetryEnds(p: Progress, start: Progress, w: World, nowMs: nat, token: string)
    requires Tracks(p, start, w, nowMs) && Wanting(p.effects, nowMs)
    requires EndsWith(p.effects, Fetched(token, Unauthorized))
    requires forall t :: Tried(p.effects, t) <==> t == token
    ensures Ended(start, w, nowMs, Retry(p, token, w, nowMs).0, Retry(p, token, w, nowMs).1)
  {
    hide Tracks, Lawful, Follows, Ended, Wanting, Renews, Renew, HasLooked, HasFetched, FoundExpiring, Tried, Finish;
    hide Check, LastCheckFailed, Usable, Fetch;
    var refused := p.(credential := None);
    RefusedTracks(p, start, w, nowMs, token);
    RenewLeaves(refused, start, w, nowMs);
    var renewed := Renew(refused, w, nowMs);
    LookAfterRefusal(p.effects, renewed.effects, start.credential, renewed.credential, nowMs);
    if renewed.credential.None? {
      UnavailableEnds(renewed, start, w, nowMs);
    } else if renewed.credential.value.token == token {
      RejectedEnds(renewed, start, w, nowMs);
    } else {
      FetchOnce(renewed, start, w, nowMs);
      var checked := Check(renewed, w);
      if !LastCheckFailed(checked) {
        var newToken, reply := renewed.credential.value.token, w.replies(checked.fetches);
        AfterFetch(renewed.effects, start.credential, newToken, reply, nowMs);
        FinishEnds(Fetch(checked, w), start, w, nowMs, newToken, reply);
      }
    }
  }

  lemma RefusedTracks(p: Progress, start: Progress, w: World, nowMs: nat, token: string)
    requires Tracks(p, start, w, nowMs) && EndsWith(p.effects, Fetched(token, Unauthorized))
    ensures Tracks(p.(credential := None), start, w, nowMs) && Held(start.credential, p.effects) == None
    ensures HasFetched(p.effects)
  {
    hide Lawful;
    assert Last(p.effects) in p.effects;
  }

  lemma UnavailableEnds(p: Progress, start: Progress, w: World, nowMs: nat)
    requires Tracks(p, start, w, nowMs) && p.credential == None == Held(start.credential, p.effects)
    requires || (EndsWith(p.effects, Looked(None)) && !Wanting(p.effects, nowMs))
             || (EndsWith(p.effects, Checked(true)) && NothingHeld(Before(p.effects)))
    ensures Ended(start, w, nowMs, p, Unavailable)
  {
    hide Lawful, Follows, HasLooked, HasFetched, FoundExpiring, Tried;
    NothingFollows(start, w, nowMs, p.effects);
  }

  /** The credential found after a 401 is the one refused. */
  lemma RejectedEnds(p: Progress, start: Progress, w: World, nowMs: nat)
    requires Tracks(p, start, w, nowMs) && p.credential.Some? && EndsWith(p.effects, Looked(p.credential))
    requires !Wanting(p.effects, nowMs) && !Usable(p.effects, nowMs)
    ensures Ended(start, w, nowMs, MapError(p, Unauthorized, nowMs).0, Rejected)
  {
    hide Lawful, Follows, HasLooked, HasFetched, FoundExpiring, Tried;
    NothingFollows(start, w, nowMs, p.effects);
  }

  lemma AttemptEnds(p: Progress, start: Progress, w: World, nowMs: nat)
    requires Tracks(p, start, w, nowMs) && p.credential.Some?
    requires Discovered(p.effects, start.credential, p.credential, nowMs)
    ensures Ended(start, w, nowMs, Attempt(p, w, nowMs).0, Attempt(p, w, nowMs).1)
  {
    hide Tracks, Lawful, Ended, Wanting, Usable, KeepsExpiring, Retry, Finish, Fetch, Check, HasFetched, Tried;
    hide LastCheckFailed;
    if Usable(p.effects, nowMs) {
      FetchOnce(p, start, w, nowMs);
      var checked := Check(p, w);
      if !LastCheckFailed(checked) {
        var token, reply := p.credential.value.token, w.replies(checked.fetches);
        AfterFetch(p.effects, start.credential, token, reply, nowMs);
        if reply == Unauthorized {
          UntriedBefore(p.effects);
          RetryEnds(Fetch(checked, w), start, w, nowMs, token);
        } else {
          FinishEnds(Fetch(checked, w), start, w, nowMs, token, reply);
        }
      }
    } else {
      StillAbandoned(p, start, w, nowMs);
    }
  }

  lemma UntriedBefore(trace: seq<Effect>)
    requires !HasFetched(trace)
    ensures forall token :: !Tried(trace, token)
  {
  }

  /** The call that holds an expiring credential checks once more, and that check fails too. */
  lemma StillAbandoned(p: Progress, start: Progress, w: World, nowMs: nat)
    requires Tracks(p, start, w, nowMs) && KeepsExpiring(p.effects, nowMs)
    requires p.credential == Held(start.credential, p.effects)
    ensures LastCheckFailed(Check(p, w)) && Ended(start, w, nowMs, Check(p, w), Abandoned)
  {
    hide Lawful, Follows, Ended, Wanting, LastCheckFailed, Check, HasLooked, HasFetched, FoundExpiring, Tried;
    AbandonedStays(start, w, nowMs, p.effects);
    CheckFollows(start, w, nowMs, p.effects);
    CheckTracks(p, start, w, nowMs);
    Snoc(p.effects, Checked(true), nowMs);
    AbandonedEnds(Check(p, w), start, w, nowMs);
  }

  /** A new call: nothing recorded yet. */
  predicate IsNew(p: Progress) {
    p.effects == [] && p.checks == p.lookups == p.fetches == 0
  }

  /** In every call each effect is what follows from those before it, with what the world answers,
      and the call returns where nothing follows; its outcome and the fields it leaves are told by
      its trace. */
  lemma CallMeans(start: Progress, w: World, nowMs: nat)
    requires IsNew(start)
    ensures Ended(start, w, nowMs, Refresh(start, w, nowMs).0, Refresh(start, w, nowMs).1)
  {
    hide Lawful, Follows, Ended, Discovered, Discover, Attempt, LastCheckFailed, Check;
    NewTracks(start, w, nowMs);
    CheckFollows(start, w, nowMs, []);
    CheckTracks(start, start, w, nowMs);
    var started := Check(start, w);
    assert started.effects == [Checked(w.abandonedFrom <= 0)];
    if LastCheckFailed(started) {
      AbandonedEnds(started, start, w, nowMs);
    } else if nowMs < started.retryAfter {
      CoolingDownEnds(started, start, w, nowMs);
    } else {
      DiscoverTracks(started, start, w, nowMs);
      var found := Discover(started, w, nowMs);
      if found.credential.None? {
        NoneFound(found, start, w, nowMs);
      } else {
        AttemptEnds(found, start, w, nowMs);
      }
    }
  }

  /** The last call of any run, whatever the calls before it left, is such a call. */
  lemma LastCallMeans(start: Progress, calls: seq<Call>)
    requires calls != []
    ensures var n := |calls| - 1;
            var before, w, nowMs := NewCall(RunState(start, calls[..n])), calls[n].w, calls[n].nowMs;
            Ended(before, w, nowMs, RunState(start, calls), Refresh(before, w, nowMs).1)
  {
    hide Refresh, Ended;
    var n := |calls| - 1;
    CallMeans(NewCall(RunState(start, calls[..n])), calls[n].w, calls[n].nowMs);
  }

  lemma NewTracks(start: Progress, w: World, nowMs: nat)
    requires IsNew(start)
    ensures Tracks(start, start, w, nowMs)
  {
  }

  lemma CoolingDownEnds(p: Progress, start: Progress, w: World, nowMs: nat)
    requires Tracks(p, start, w, nowMs) && p.effects == [Checked(false)] && nowMs < start.retryAfter
    requires p.credential == start.credential
    ensures Ended(start, w, nowMs, p, CoolingDown)
  {
    hide Lawful, Follows;
    assert Before(p.effects) == [] && Held(start.credential, []) == start.credential;
    assert Last(p.effects) == Checked(false) && Renewed !in p.effects;
    NothingFollows(start, w, nowMs, p.effects);
    assert Verdict(p.effects, CoolingDown);
    assert Leaves(start, nowMs, p, CoolingDown);
  }

  lemma NoneFound(p: Progress, start: Progress, w: World, nowMs: nat)
    requires Tracks(p, start, w, nowMs) && p.credential.None?
    requires Discovered(p.effects, start.credential, None, nowMs)
    ensures Ended(start, w, nowMs, p, Unavailable)
  {
    hide Tracks, Ended, Wanting;
    UnavailableEnds(p, start, w, nowMs);
  }

  /** After `k` effects: a fetch was answered with windows, and the check after it passed. */
  predicate WriteDue(trace: seq<Effect>, k: int) {
    2 <= k <= |trace| && trace[k - 1] == Checked(false) && trace[k - 2].Fetched? && trace[k - 2].reply == Windows
  }

  /** The cache is written exactly where a fetch was answered with windows and the check after it passed,
      and a call returns new values exactly when it has written. */
  lemma WritesMean(start: Progress, w: World, nowMs: nat)
    requires IsNew(start)
    ensures var (p, outcome) := Refresh(start, w, nowMs);
            && (forall k :: WriteDue(p.effects, k) <==> 0 <= k < |p.effects| && p.effects[k] == Wrote)
            && (outcome == Refreshed <==> Wrote in p.effects)
  {
    CallMeans(start, w, nowMs);
    hide Refresh, Leaves;
    var (p, outcome) := Refresh(start, w, nowMs);
    WritesInTrace(start, w, nowMs, p.effects, outcome);
  }

  lemma WritesInTrace(start: Progress, w: World, nowMs: nat, trace: seq<Effect>, outcome: Outcome)
    requires Lawful(start, w, nowMs, trace) && Follows(start, w, nowMs, trace, None) && Verdict(trace, outcome)
    ensures forall k :: WriteDue(trace, k) <==> 0 <= k < |trace| && trace[k] == Wrote
    ensures outcome == Refreshed <==> Wrote in trace
  {
    assert outcome == Refreshed <==> EndsWith(trace, Wrote);
    hide Follows, Lawful, Verdict, WriteDue;
    forall k: int
      ensures WriteDue(trace, k) <==> 0 <= k < |trace| && trace[k] == Wrote
    {
      WroteAt(start, w, nowMs, trace, k);
    }
    if Wrote in trace {
      WroteLast(start, w, nowMs, trace);
    }
  }

  lemma WroteAt(start: Progress, w: World, nowMs: nat, trace: seq<Effect>, k: int)
    requires Lawful(start, w, nowMs, trace) && Follows(start, w, nowMs, trace, None)
    ensures WriteDue(trace, k) <==> 0 <= k < |trace| && trace[k] == Wrote
  {
    hide Wanting, Usable, KeepsExpiring, FromWorld;
    if 0 <= k <= |trace| {
      var t := trace[..k];
      assert trace[..|trace|] == trace;
      assert Follows(start, w, nowMs, t, if k < |trace| then Some(trace[k]) else None);
      assert k >= 1 ==> Last(t) == trace[k - 1] && Before(t) == trace[..k - 1];
      assert k >= 2 ==> Last(Before(t)) == trace[k - 2];
    }
  }

  /** Nothing follows a write. */
  lemma WriteEnds(start: Progress, w: World, nowMs: nat, trace: seq<Effect>, next: Effect)
    requires EndsWith(trace, Wrote)
    ensures !Follows(start, w, nowMs, trace, Some(next))
  {
    hide HasLooked, HasFetched, FoundExpiring, Tried;
  }

  lemma WroteLast(start: Progress, w: World, nowMs: nat, trace: seq<Effect>)
    requires Lawful(start, w, nowMs, trace) && Wrote in trace
    ensures EndsWith(trace, Wrote)
  {
    hide Follows;
    var k :| 0 <= k < |trace| && trace[k] == Wrote;
    if k + 1 < |trace| {
      assert Follows(start, w, nowMs, trace[..k + 1], Some(trace[k + 1]));
      WriteEnds(start, w, nowMs, trace[..k + 1], trace[k + 1]);
    }
  }

  /** A first call that finds a credential without an expiry, and windows, writes the cache. */
  lemma PlainCall()
    ensures var start, c := Progress(None, 0, 0, [], 0, 0, 0), Credential("t", None);
            var w := World(n => Some(c), n => Windows, 100);
            Refresh(start, w, 1_000).1 == Refreshed
            && Refresh(start, w, 1_000).0.effects
               == [Checked(false), Looked(Some(c)), Checked(false), Fetched("t", Windows), Checked(false), Wrote]
  {
    var start, c := Progress(None, 0, 0, [], 0, 0, 0), Credential("t", None);
    var w := World(n => Some(c), n => Windows, 100);
    var started := Check(start, w);
    assert Discover(started, w, 1_000).effects == [Checked(false), Looked(Some(c))];
  }
}
