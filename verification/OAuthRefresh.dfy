/** `refresh_claude_oauth` of `crates/quota/src/lib.rs`: its cooldowns, its retries and its
    abandon checks, over one call and over any run of calls. */
module OAuthRefresh {
  import opened Options

  const RETRY_AFTER_MS := 60_000
  const REFRESH_COOLDOWN_MS := 60_000
  const REFRESH_SKEW_MS := 240_000

  datatype Credential = Credential(token: string, expiresAt: Option<nat>)

  predicate ShouldRefresh(c: Credential, nowMs: nat) {
    c.expiresAt.Some? && c.expiresAt.value <= SaturatingAdd(nowMs, REFRESH_SKEW_MS)
  }

  /** What the usage endpoint answers: windows, a response without any, or an error. */
  datatype Reply = Windows | NoWindows | Unauthorized | RateLimited | Failed

  /** What the outside world answers during one call: the credential store read by read, the
      endpoint fetch by fetch, and the flag check from which on the call is abandoned. The
      flag is never cleared during a call. */
  datatype World = World(credentials: nat -> Option<Credential>, replies: nat -> Reply, abandonedFrom: nat)

  /** What a call does outside, in order. */
  datatype Effect =
    | Checked(abandoned: bool)
    | Looked(found: Option<Credential>)
    | Renewed
    | Fetched(token: string, reply: Reply)
    | Wrote

  datatype Outcome = Refreshed | Abandoned | CoolingDown | Unavailable | Rejected | Unsupported | Error

  /** The collector's fields, and how far the current call has got. */
  datatype Progress = Progress(credential: Option<Credential>, retryAfter: nat, refreshAfter: nat,
                               effects: seq<Effect>, checks: nat, lookups: nat, fetches: nat)

  // ----- The call, step by step -----

  function Check(p: Progress, w: World): Progress {
    p.(effects := p.effects + [Checked(w.abandonedFrom <= p.checks)], checks := p.checks + 1)
  }

  predicate LastCheckFailed(p: Progress) {
    p.effects != [] && p.effects[|p.effects| - 1] == Checked(true)
  }

  function ReadCredential(p: Progress, w: World): Progress {
    var found := w.credentials(p.lookups);
    p.(credential := found, effects := p.effects + [Looked(found)], lookups := p.lookups + 1)
  }

  /** `refresh_oauth_credential_from_provider`. */
  function Renew(p: Progress, w: World, nowMs: nat): Progress {
    if nowMs < p.refreshAfter then ReadCredential(p, w)
    else
      var checked := Check(p, w);
      if LastCheckFailed(checked) then checked
      else
        ReadCredential(checked.(refreshAfter := SaturatingAdd(nowMs, REFRESH_COOLDOWN_MS),
                                effects := checked.effects + [Renewed]), w)
  }

  function Fetch(p: Progress, w: World): Progress
    requires p.credential.Some?
  {
    p.(effects := p.effects + [Fetched(p.credential.value.token, w.replies(p.fetches))], fetches := p.fetches + 1)
  }

  /** `map_oauth_error`. */
  function MapError(p: Progress, reply: Reply, nowMs: nat): (Progress, Outcome) {
    match reply
    case Unauthorized => (p.(credential := None), Rejected)
    case RateLimited => (p.(retryAfter := SaturatingAdd(nowMs, RETRY_AFTER_MS)), CoolingDown)
    case _ => (p, Error)
  }

  /** From a response to the cache. */
  function Finish(p: Progress, reply: Reply, w: World, nowMs: nat): (Progress, Outcome) {
    match reply
    case Windows =>
      var checked := Check(p, w);
      if LastCheckFailed(checked) then (checked, Abandoned)
      else (checked.(effects := checked.effects + [Wrote]), Refreshed)
    case NoWindows => (p, Unsupported)
    case _ => MapError(p, reply, nowMs)
  }

  /** The credential a call starts to fetch with. */
  function Discover(p: Progress, w: World, nowMs: nat): Progress {
    var read := ReadCredential(p, w);
    var present := if read.credential.None? then Renew(read, w, nowMs) else read;
    if present.credential.Some? && ShouldRefresh(present.credential.value, nowMs) then Renew(present, w, nowMs)
    else present
  }

  /** After a 401: renew, and fetch once more with a different token. */
  function Retry(p: Progress, token: string, w: World, nowMs: nat): (Progress, Outcome) {
    var renewed := Renew(p.(credential := None), w, nowMs);
    if renewed.credential.None? then (renewed, Unavailable)
    else if renewed.credential.value.token == token then MapError(renewed, Unauthorized, nowMs)
    else
      var checked := Check(renewed, w);
      if LastCheckFailed(checked) then (checked, Abandoned)
      else Finish(Fetch(checked, w), w.replies(checked.fetches), w, nowMs)
  }

  /** Fetch with the discovered credential. */
  function Attempt(p: Progress, w: World, nowMs: nat): (Progress, Outcome)
    requires p.credential.Some?
  {
    var checked := Check(p, w);
    if LastCheckFailed(checked) then (checked, Abandoned)
    else
      var reply := w.replies(checked.fetches);
      var fetched := Fetch(checked, w);
      if reply == Unauthorized then Retry(fetched, p.credential.value.token, w, nowMs)
      else Finish(fetched, reply, w, nowMs)
  }

  function Refresh(p: Progress, w: World, nowMs: nat): (Progress, Outcome) {
    var started := Check(p, w);
    if LastCheckFailed(started) then (started, Abandoned)
    else if nowMs < started.retryAfter then (started, CoolingDown)
    else
      var found := Discover(started, w, nowMs);
      if found.credential.None? then (found, Unavailable) else Attempt(found, w, nowMs)
  }

  // ----- The collector -----

  class QuotaCollector {
    var oauthCredential: Option<Credential>
    var oauthRetryAfter: nat
    var oauthRefreshAfter: nat
    /** The record of the current call. */
    var effects: seq<Effect>
    var checks: nat
    var lookups: nat
    var fetches: nat

    ghost function View(): Progress
      reads this
    {
      Progress(oauthCredential, oauthRetryAfter, oauthRefreshAfter, effects, checks, lookups, fetches)
    }

    constructor ()
      ensures View() == Progress(None, 0, 0, [], 0, 0, 0)
    {
      oauthCredential, oauthRetryAfter, oauthRefreshAfter := None, 0, 0;
      effects, checks, lookups, fetches := [], 0, 0, 0;
    }

    /** Starts the record of a call. */
    method BeginCall()
      modifies this
      ensures View() == NewCall(old(View()))
    {
      effects, checks, lookups, fetches := [], 0, 0, 0;
    }

    method IsAbandoned(w: World) returns (abandoned: bool)
      modifies this
      ensures View() == Check(old(View()), w) && abandoned == LastCheckFailed(View())
    {
      abandoned := w.abandonedFrom <= checks;
      effects, checks := effects + [Checked(abandoned)], checks + 1;
    }

    method ReadStore(w: World)
      modifies this
      ensures View() == ReadCredential(old(View()), w)
    {
      oauthCredential := w.credentials(lookups);
      effects, lookups := effects + [Looked(oauthCredential)], lookups + 1;
    }

    method RefreshFromProvider(w: World, nowMs: nat)
      modifies this
      ensures View() == Renew(old(View()), w, nowMs)
    {
      if nowMs < oauthRefreshAfter {
        ReadStore(w);
        return;
      }
      var abandoned := IsAbandoned(w);
      if abandoned {
        return;
      }
      oauthRefreshAfter := SaturatingAdd(nowMs, REFRESH_COOLDOWN_MS);
      effects := effects + [Renewed];
      ReadStore(w);
    }

    method FetchUsage(token: string, w: World) returns (reply: Reply)
      requires oauthCredential.Some? && oauthCredential.value.token == token
      modifies this
      ensures View() == Fetch(old(View()), w) && reply == w.replies(old(fetches))
    {
      reply := w.replies(fetches);
      effects, fetches := effects + [Fetched(token, reply)], fetches + 1;
    }

    method MapOAuthError(reply: Reply, nowMs: nat) returns (outcome: Outcome)
      modifies this
      ensures (View(), outcome) == MapError(old(View()), reply, nowMs)
    {
      match reply {
        case Unauthorized =>
          oauthCredential := None;
          outcome := Rejected;
        case RateLimited =>
          oauthRetryAfter := SaturatingAdd(nowMs, RETRY_AFTER_MS);
          outcome := CoolingDown;
        case _ =>
          outcome := Error;
      }
    }

    method DiscoverCredential(w: World, nowMs: nat)
      modifies this
      ensures View() == Discover(old(View()), w, nowMs)
    {
      hide Renew;
      ReadStore(w);
      if oauthCredential.None? {
        RefreshFromProvider(w, nowMs);
      }
      if oauthCredential.Some? && ShouldRefresh(oauthCredential.value, nowMs) {
        RefreshFromProvider(w, nowMs);
      }
    }

    method FinishWith(reply: Reply, w: World, nowMs: nat) returns (outcome: Outcome)
      modifies this
      ensures (View(), outcome) == Finish(old(View()), reply, w, nowMs)
    {
      if reply.Unauthorized? || reply.RateLimited? || reply.Failed? {
        outcome := MapOAuthError(reply, nowMs);
        return;
      }
      if reply.NoWindows? {
        return Unsupported;
      }
      var abandoned := IsAbandoned(w);
      if abandoned {
        return Abandoned;
      }
      effects := effects + [Wrote];
      return Refreshed;
    }

    method RetryRenewed(accessToken: string, w: World, nowMs: nat) returns (outcome: Outcome)
      modifies this
      ensures (View(), outcome) == Retry(old(View()), accessToken, w, nowMs)
    {
      hide Renew, Finish, LastCheckFailed, Check;
      oauthCredential := None;
      RefreshFromProvider(w, nowMs);
      if oauthCredential.None? {
        return Unavailable;
      }
      var updatedToken := oauthCredential.value.token;
      if updatedToken == accessToken {
        outcome := MapOAuthError(Unauthorized, nowMs);
        return;
      }
      CheckKeepsRest(View(), w);
      var abandoned := IsAbandoned(w);
      if abandoned {
        return Abandoned;
      }
      var reply := FetchUsage(updatedToken, w);
      outcome := FinishWith(reply, w, nowMs);
    }

    method RefreshClaudeOAuth(w: World, nowMs: nat) returns (outcome: Outcome)
      modifies this
      ensures (View(), outcome) == Refresh(NewCall(old(View())), w, nowMs)
    {
      hide Discover, Retry, Finish, LastCheckFailed, Check;
      BeginCall();
      CheckKeepsRest(View(), w);
      var abandoned := IsAbandoned(w);
      if abandoned {
        return Abandoned;
      }
      if nowMs < oauthRetryAfter {
        return CoolingDown;
      }
      DiscoverCredential(w, nowMs);
      if oauthCredential.None? {
        return Unavailable;
      }
      var accessToken := oauthCredential.value.token;
      CheckKeepsRest(View(), w);
      abandoned := IsAbandoned(w);
      if abandoned {
        return Abandoned;
      }
      var reply := FetchUsage(accessToken, w);
      if reply == Unauthorized {
        outcome := RetryRenewed(accessToken, w, nowMs);
        return;
      }
      outcome := FinishWith(reply, w, nowMs);
    }
  }

  lemma CheckKeepsRest(p: Progress, w: World)
    ensures Check(p, w).credential == p.credential && Check(p, w).fetches == p.fetches
  {
  }

  // ----- One call -----

  predicate IsFetch(e: Effect) {
    e.Fetched?
  }

  function Fetches(effects: seq<Effect>): nat {
    if effects == [] then 0
    else Fetches(effects[..|effects| - 1]) + (if IsFetch(effects[|effects| - 1]) then 1 else 0)
  }

  function Renewals(effects: seq<Effect>): nat {
    multiset(effects)[Renewed]
  }

  /** A renewal, a fetch or a write of the cache. */
  predicate Acts(e: Effect) {
    e == Renewed || e.Fetched? || e == Wrote
  }

  /** Every act is directly preceded by a check that passed. */
  ghost predicate Preceded(effects: seq<Effect>) {
    forall k :: 0 <= k < |effects| && Acts(effects[k]) ==> k > 0 && effects[k - 1] == Checked(false)
  }

  /** A failed check is followed by failed checks only. */
  ghost predicate Sticky(effects: seq<Effect>) {
    forall i, k :: 0 <= i < k < |effects| && effects[i] == Checked(true) ==> effects[k] == Checked(true)
  }

  predicate IsRateLimit(e: Effect) {
    e.Fetched? && e.reply == RateLimited
  }

  /** A rate limit ends a call. */
  ghost predicate LimitedLast(effects: seq<Effect>) {
    forall i :: 0 <= i < |effects| - 1 ==> !IsRateLimit(effects[i])
  }

  ghost predicate Unlimited(effects: seq<Effect>) {
    forall i :: 0 <= i < |effects| ==> !IsRateLimit(effects[i])
  }

  /** What every point of a call that began in `start` at `nowMs` satisfies. */
  ghost predicate Underway(p: Progress, start: Progress, w: World, nowMs: nat) {
    && Preceded(p.effects) && Sticky(p.effects) && LimitedLast(p.effects)
    && (Checked(true) in p.effects ==> w.abandonedFrom < p.checks)
    && p.fetches == Fetches(p.effects)
    && (Renewals(p.effects) == 0 ==> p.refreshAfter == start.refreshAfter)
    && (Renewals(p.effects) > 0 ==>
          start.refreshAfter <= nowMs && p.refreshAfter == SaturatingAdd(nowMs, REFRESH_COOLDOWN_MS))
    && (nowMs < U64_MAX ==> Renewals(p.effects) <= 1)
  }

  ghost predicate Clear(p: Progress) {
    Unlimited(p.effects)
  }

  /** Recording one more effect: a check that stays failed once failed, or an act right after
      a passed check. */
  lemma Record(effects: seq<Effect>, e: Effect)
    requires Preceded(effects) && Sticky(effects) && Unlimited(effects)
    requires e == Checked(false) || e.Looked? ==> Checked(true) !in effects
    requires Acts(e) ==> effects != [] && effects[|effects| - 1] == Checked(false)
    ensures Preceded(effects + [e]) && Sticky(effects + [e]) && LimitedLast(effects + [e])
    ensures !IsRateLimit(e) ==> Unlimited(effects + [e])
    ensures Fetches(effects + [e]) == Fetches(effects) + (if IsFetch(e) then 1 else 0)
    ensures Renewals(effects + [e]) == Renewals(effects) + (if e == Renewed then 1 else 0)
    ensures !e.Checked? ==> Checked(true) !in effects + [e]
  {
    hide Preceded, Sticky, LimitedLast, Unlimited, IsRateLimit, Fetches, Renewals;
    RecordCounts(effects, e);
    PrecededExtends(effects, e);
    if Acts(e) {
      NotYetAbandoned(effects);
    }
    StickyExtends(effects, e);
  }

  lemma PrecededExtends(effects: seq<Effect>, e: Effect)
    requires Preceded(effects) && Unlimited(effects)
    requires Acts(e) ==> effects != [] && effects[|effects| - 1] == Checked(false)
    ensures Preceded(effects + [e]) && LimitedLast(effects + [e])
    ensures !IsRateLimit(e) ==> Unlimited(effects + [e])
  {
    hide IsRateLimit;
    var out := effects + [e];
    assert forall i :: 0 <= i < |effects| ==> out[i] == effects[i];
  }

  lemma RecordCounts(effects: seq<Effect>, e: Effect)
    ensures Fetches(effects + [e]) == Fetches(effects) + (if IsFetch(e) then 1 else 0)
    ensures Renewals(effects + [e]) == Renewals(effects) + (if e == Renewed then 1 else 0)
  {
    assert (effects + [e])[..|effects|] == effects;
  }

  lemma StickyExtends(effects: seq<Effect>, e: Effect)
    requires Sticky(effects) && (e == Checked(true) || Checked(true) !in effects)
    ensures Sticky(effects + [e])
  {
    var out := effects + [e];
    forall i, k | 0 <= i < k < |out| && out[i] == Checked(true) ensures out[k] == Checked(true) {
      assert out[i] == effects[i];
    }
  }

  lemma NotYetAbandoned(effects: seq<Effect>)
    requires Sticky(effects) && effects != [] && effects[|effects| - 1] == Checked(false)
    ensures Checked(true) !in effects
  {
    var last := |effects| - 1;
    assert forall i :: 0 <= i < last && effects[i] == Checked(true) ==> effects[last] == Checked(true);
  }

  lemma CheckUnderway(p: Progress, start: Progress, w: World, nowMs: nat)
    requires Underway(p, start, w, nowMs) && Clear(p)
    ensures Underway(Check(p, w), start, w, nowMs) && Clear(Check(p, w))
  {
    Record(p.effects, Checked(w.abandonedFrom <= p.checks));
  }

  /** Not abandoned so far. */
  ghost predicate Alive(p: Progress) {
    Checked(true) !in p.effects
  }

  lemma LookUnderway(p: Progress, start: Progress, w: World, nowMs: nat)
    requires Underway(p, start, w, nowMs) && Clear(p) && Alive(p)
    ensures var q := ReadCredential(p, w);
            && Underway(q, start, w, nowMs) && Clear(q) && Alive(q)
            && q.retryAfter == p.retryAfter && q.fetches == p.fetches
  {
    Record(p.effects, Looked(w.credentials(p.lookups)));
  }

  lemma RenewedUnderway(p: Progress, start: Progress, w: World, nowMs: nat)
    requires Underway(p, start, w, nowMs) && Clear(p) && nowMs <= U64_MAX
    requires p.refreshAfter <= nowMs && p.effects != [] && p.effects[|p.effects| - 1] == Checked(false)
    ensures var q := p.(refreshAfter := SaturatingAdd(nowMs, REFRESH_COOLDOWN_MS), effects := p.effects + [Renewed]);
            Underway(q, start, w, nowMs) && Clear(q) && Alive(q)
  {
    Record(p.effects, Renewed);
  }

  lemma RenewUnderway(p: Progress, start: Progress, w: World, nowMs: nat)
    requires Underway(p, start, w, nowMs) && Clear(p) && Alive(p) && nowMs <= U64_MAX
    ensures var q := Renew(p, w, nowMs);
            && Underway(q, start, w, nowMs) && Clear(q) && q.retryAfter == p.retryAfter && q.fetches == p.fetches
            && (Alive(q) || q.credential == p.credential)
  {
    hide Underway, Clear, Alive;
    if nowMs < p.refreshAfter {
      LookUnderway(p, start, w, nowMs);
    } else {
      CheckUnderway(p, start, w, nowMs);
      var checked := Check(p, w);
      if !LastCheckFailed(checked) {
        RenewedUnderway(checked, start, w, nowMs);
        var renewed := checked.(refreshAfter := SaturatingAdd(nowMs, REFRESH_COOLDOWN_MS),
                                effects := checked.effects + [Renewed]);
        LookUnderway(renewed, start, w, nowMs);
      }
    }
  }

  lemma DiscoverUnderway(p: Progress, start: Progress, w: World, nowMs: nat)
    requires Underway(p, start, w, nowMs) && Clear(p) && Alive(p) && nowMs <= U64_MAX
    ensures Underway(Discover(p, w, nowMs), start, w, nowMs) && Clear(Discover(p, w, nowMs))
    ensures Discover(p, w, nowMs).retryAfter == p.retryAfter && Discover(p, w, nowMs).fetches == p.fetches
  {
    hide Underway, Clear, Alive, Renew;
    LookUnderway(p, start, w, nowMs);
    var read := ReadCredential(p, w);
    RenewUnderway(read, start, w, nowMs);
    var present := if read.credential.None? then Renew(read, w, nowMs) else read;
    if present.credential.Some? {
      RenewUnderway(present, start, w, nowMs);
    }
  }

  /** What a finished call satisfies. */
  ghost predicate Over(p: Progress, start: Progress, w: World, nowMs: nat) {
    && Underway(p, start, w, nowMs)
    && (Clear(p) ==> p.retryAfter == start.retryAfter)
    && (!Clear(p) ==> p.retryAfter == SaturatingAdd(nowMs, RETRY_AFTER_MS))
  }

  lemma FetchUnderway(p: Progress, start: Progress, w: World, nowMs: nat)
    requires Underway(p, start, w, nowMs) && Clear(p)
    requires p.effects != [] && p.effects[|p.effects| - 1] == Checked(false) && p.credential.Some?
    ensures Underway(Fetch(p, w), start, w, nowMs)
    ensures Clear(Fetch(p, w)) <==> w.replies(p.fetches) != RateLimited
    ensures Alive(Fetch(p, w))
  {
    var fetched := Fetched(p.credential.value.token, w.replies(p.fetches));
    Record(p.effects, fetched);
    assert Fetch(p, w).effects[|p.effects|] == fetched;
  }

  lemma FinishOver(p: Progress, start: Progress, reply: Reply, w: World, nowMs: nat)
    requires Underway(p, start, w, nowMs) && p.retryAfter == start.retryAfter
    requires Clear(p) <==> reply != RateLimited
    ensures Over(Finish(p, reply, w, nowMs).0, start, w, nowMs)
    ensures Finish(p, reply, w, nowMs).0.fetches == p.fetches
  {
    if reply == Windows {
      FinishWindows(p, start, w, nowMs);
    }
  }

  lemma FinishWindows(p: Progress, start: Progress, w: World, nowMs: nat)
    requires Underway(p, start, w, nowMs) && Clear(p) && p.retryAfter == start.retryAfter
    ensures Over(Finish(p, Windows, w, nowMs).0, start, w, nowMs)
    ensures Finish(p, Windows, w, nowMs).0.fetches == p.fetches
  {
    CheckUnderway(p, start, w, nowMs);
    var checked := Check(p, w);
    if !LastCheckFailed(checked) {
      Record(checked.effects, Wrote);
    }
  }

  lemma StartUnderway(start: Progress, w: World, nowMs: nat)
    requires start.effects == [] && start.fetches == 0
    ensures Underway(start, start, w, nowMs) && Clear(start)
  {
  }

  lemma ClearIsOver(p: Progress, start: Progress, w: World, nowMs: nat)
    requires Underway(p, start, w, nowMs) && Clear(p) && p.retryAfter == start.retryAfter
    ensures Over(p, start, w, nowMs)
  {
  }

  lemma OverCounts(p: Progress, start: Progress, w: World, nowMs: nat)
    requires Over(p, start, w, nowMs)
    ensures p.fetches == Fetches(p.effects)
  {
  }

  lemma CheckOnlyRecords(p: Progress, w: World)
    ensures Check(p, w) == p.(effects := Check(p, w).effects, checks := p.checks + 1)
  {
  }

  /** Everything a call guarantees, from any earlier state of the collector. */
  lemma CallGuarantees(start: Progress, w: World, nowMs: nat)
    requires start.effects == [] && start.checks == 0 && start.fetches == 0 && nowMs <= U64_MAX
    ensures var p := Refresh(start, w, nowMs).0;
            && Over(p, start, w, nowMs)
            && Fetches(p.effects) <= 2
            && (Fetches(p.effects) > 0 ==> start.retryAfter <= nowMs)
  {
    hide Discover, Attempt, Check, LastCheckFailed, Underway, Over, Clear, Fetches;
    var started := Check(start, w);
    StartUnderway(start, w, nowMs);
    CheckUnderway(start, start, w, nowMs);
    CheckOnlyRecords(start, w);
    if LastCheckFailed(started) || nowMs < started.retryAfter {
      ClearIsOver(started, start, w, nowMs);
    } else {
      PassedIsAlive(start, start, w, nowMs);
      DiscoverUnderway(started, start, w, nowMs);
      var found := Discover(started, w, nowMs);
      if found.credential.None? {
        ClearIsOver(found, start, w, nowMs);
      } else {
        AttemptGuarantees(found, start, w, nowMs);
      }
    }
    OverCounts(Refresh(start, w, nowMs).0, start, w, nowMs);
  }

  lemma AttemptGuarantees(p: Progress, start: Progress, w: World, nowMs: nat)
    requires Underway(p, start, w, nowMs) && Clear(p) && p.retryAfter == start.retryAfter && nowMs <= U64_MAX
    requires p.credential.Some?
    ensures Over(Attempt(p, w, nowMs).0, start, w, nowMs)
    ensures Attempt(p, w, nowMs).0.fetches <= p.fetches + 2
  {
    hide Finish, Retry;
    CheckUnderway(p, start, w, nowMs);
    var checked := Check(p, w);
    if !LastCheckFailed(checked) {
      FetchUnderway(checked, start, w, nowMs);
      if w.replies(checked.fetches) == Unauthorized {
        RetryGuarantees(Fetch(checked, w), start, p.credential.value.token, w, nowMs);
      } else {
        FinishOver(Fetch(checked, w), start, w.replies(checked.fetches), w, nowMs);
      }
    }
  }

  lemma CredentialDoesNotMatter(p: Progress, credential: Option<Credential>, start: Progress, w: World, nowMs: nat)
    ensures var q := p.(credential := credential);
            && (Underway(p, start, w, nowMs) <==> Underway(q, start, w, nowMs))
            && (Over(p, start, w, nowMs) <==> Over(q, start, w, nowMs))
            && (Clear(p) <==> Clear(q)) && (Alive(p) <==> Alive(q))
  {
  }

  lemma CheckPasses(p: Progress, w: World)
    ensures var checked := Check(p, w);
            !LastCheckFailed(checked) ==>
              checked.effects != [] && checked.effects[|checked.effects| - 1] == Checked(false)
  {
  }

  lemma PassedIsAlive(p: Progress, start: Progress, w: World, nowMs: nat)
    requires Underway(Check(p, w), start, w, nowMs) && !LastCheckFailed(Check(p, w))
    ensures Alive(Check(p, w))
  {
    NotYetAbandoned(Check(p, w).effects);
  }

  lemma RetryGuarantees(p: Progress, start: Progress, token: string, w: World, nowMs: nat)
    requires Underway(p, start, w, nowMs) && Clear(p) && Alive(p)
    requires p.retryAfter == start.retryAfter && nowMs <= U64_MAX
    ensures Over(Retry(p, token, w, nowMs).0, start, w, nowMs)
    ensures Retry(p, token, w, nowMs).0.fetches <= p.fetches + 1
  {
    hide Finish, Renew, Check, LastCheckFailed, Underway, Over, Clear, Alive;
    CredentialDoesNotMatter(p, None, start, w, nowMs);
    RenewUnderway(p.(credential := None), start, w, nowMs);
    var renewed := Renew(p.(credential := None), w, nowMs);
    ClearIsOver(renewed, start, w, nowMs);
    CredentialDoesNotMatter(renewed, None, start, w, nowMs);
    if renewed.credential.Some? && renewed.credential.value.token != token {
      CheckUnderway(renewed, start, w, nowMs);
      CheckOnlyRecords(renewed, w);
      CheckPasses(renewed, w);
      var checked := Check(renewed, w);
      if LastCheckFailed(checked) {
        ClearIsOver(checked, start, w, nowMs);
      } else {
        FetchUnderway(checked, start, w, nowMs);
        FinishOver(Fetch(checked, w), start, w.replies(checked.fetches), w, nowMs);
      }
    }
  }

  /** Once a check sees the abandon flag, the call does not renew, fetch or write. */
  lemma AbandonedStops(start: Progress, w: World, nowMs: nat, i: nat, k: nat)
    requires start.effects == [] && start.checks == 0 && start.fetches == 0 && nowMs <= U64_MAX
    requires var effects := Refresh(start, w, nowMs).0.effects;
             i < k < |effects| && effects[i] == Checked(true)
    ensures Refresh(start, w, nowMs).0.effects[k] == Checked(true)
  {
    CallGuarantees(start, w, nowMs);
  }

  // ----- What a call fetches again and writes -----

  /** A fetch is repeated only after a 401, with another token. */
  ghost predicate RetriesJustified(effects: seq<Effect>) {
    forall i, k :: 0 <= i < k < |effects| && effects[i].Fetched? && effects[k].Fetched? ==>
      effects[i].reply == Unauthorized && effects[i].token != effects[k].token
  }

  /** Some fetch was answered with windows. */
  ghost predicate Answered(effects: seq<Effect>) {
    exists i :: 0 <= i < |effects| && effects[i].Fetched? && effects[i].reply == Windows
  }

  ghost predicate WritesAnswered(effects: seq<Effect>) {
    forall k :: 0 <= k < |effects| && effects[k] == Wrote ==> Answered(effects[..k])
  }

  /** The fetches so far are justified, and all of them asked with `tried` and got a 401. */
  ghost predicate Fair(effects: seq<Effect>, tried: Option<string>) {
    && RetriesJustified(effects) && WritesAnswered(effects)
    && forall i :: 0 <= i < |effects| && effects[i].Fetched? ==>
         tried.Some? && effects[i] == Fetched(tried.value, Unauthorized)
  }

  lemma WritesKept(effects: seq<Effect>, e: Effect)
    requires WritesAnswered(effects) && (e == Wrote ==> Answered(effects))
    ensures WritesAnswered(effects + [e])
  {
    var out := effects + [e];
    forall k | 0 <= k < |out| && out[k] == Wrote
      ensures Answered(out[..k])
    {
      assert out[..k] == effects[..k];
      assert effects[..|effects|] == effects;
    }
  }

  lemma QuietIsFair(effects: seq<Effect>, e: Effect, tried: Option<string>)
    requires Fair(effects, tried) && !e.Fetched? && e != Wrote
    ensures Fair(effects + [e], tried)
  {
    WritesKept(effects, e);
    hide WritesAnswered;
    assert forall i :: 0 <= i < |effects| ==> (effects + [e])[i] == effects[i];
  }

  lemma FetchIsJustified(effects: seq<Effect>, token: string, reply: Reply, tried: Option<string>)
    requires Fair(effects, tried) && tried != Some(token)
    ensures var out := effects + [Fetched(token, reply)];
            && RetriesJustified(out) && WritesAnswered(out) && (reply == Windows ==> Answered(out))
            && (tried.None? && reply == Unauthorized ==> Fair(out, Some(token)))
  {
    var out := effects + [Fetched(token, reply)];
    WritesKept(effects, Fetched(token, reply));
    hide WritesAnswered;
    assert out[|effects|] == Fetched(token, reply) && forall i :: 0 <= i < |effects| ==> out[i] == effects[i];
  }

  lemma CheckIsFair(p: Progress, w: World, tried: Option<string>)
    requires Fair(p.effects, tried)
    ensures Fair(Check(p, w).effects, tried)
  {
    QuietIsFair(p.effects, Checked(w.abandonedFrom <= p.checks), tried);
  }

  lemma LookIsFair(p: Progress, w: World, tried: Option<string>)
    requires Fair(p.effects, tried)
    ensures Fair(ReadCredential(p, w).effects, tried)
  {
    QuietIsFair(p.effects, Looked(w.credentials(p.lookups)), tried);
  }

  lemma RenewIsFair(p: Progress, w: World, nowMs: nat, tried: Option<string>)
    requires Fair(p.effects, tried)
    ensures Fair(Renew(p, w, nowMs).effects, tried)
  {
    hide Fair, LastCheckFailed;
    LookIsFair(p, w, tried);
    CheckIsFair(p, w, tried);
    var checked := Check(p, w);
    QuietIsFair(checked.effects, Renewed, tried);
    LookIsFair(checked.(refreshAfter := SaturatingAdd(nowMs, REFRESH_COOLDOWN_MS),
                        effects := checked.effects + [Renewed]), w, tried);
  }

  lemma DiscoverIsFair(p: Progress, w: World, nowMs: nat, tried: Option<string>)
    requires Fair(p.effects, tried)
    ensures Fair(Discover(p, w, nowMs).effects, tried)
  {
    hide Fair, Renew;
    LookIsFair(p, w, tried);
    var read := ReadCredential(p, w);
    RenewIsFair(read, w, nowMs, tried);
    RenewIsFair(if read.credential.None? then Renew(read, w, nowMs) else read, w, nowMs, tried);
  }

  lemma FinishIsJustified(p: Progress, reply: Reply, w: World, nowMs: nat)
    requires RetriesJustified(p.effects) && WritesAnswered(p.effects) && (reply == Windows ==> Answered(p.effects))
    ensures var effects := Finish(p, reply, w, nowMs).0.effects;
            RetriesJustified(effects) && WritesAnswered(effects)
  {
    if reply == Windows {
      var checked := p.effects + [Checked(w.abandonedFrom <= p.checks)];
      AnsweredStays(p.effects, Checked(w.abandonedFrom <= p.checks));
      WritesKept(p.effects, Checked(w.abandonedFrom <= p.checks));
      WritesKept(checked, Wrote);
      hide WritesAnswered, Answered;
      assert forall i :: 0 <= i < |p.effects| ==> (checked + [Wrote])[i] == checked[i] == p.effects[i];
    }
  }

  lemma AnsweredStays(effects: seq<Effect>, e: Effect)
    requires Answered(effects)
    ensures Answered(effects + [e])
  {
    var i :| 0 <= i < |effects| && effects[i].Fetched? && effects[i].reply == Windows;
    assert (effects + [e])[i] == effects[i];
  }

  lemma RetryIsJustified(p: Progress, token: string, w: World, nowMs: nat)
    requires Fair(p.effects, Some(token))
    ensures RetriesJustified(Retry(p, token, w, nowMs).0.effects) && WritesAnswered(Retry(p, token, w, nowMs).0.effects)
  {
    var renewed := Renew(p.(credential := None), w, nowMs);
    RenewIsFair(p.(credential := None), w, nowMs, Some(token));
    CheckIsFair(renewed, w, Some(token));
    CheckOnlyRecords(renewed, w);
    hide Renew, Check, Finish, LastCheckFailed;
    if renewed.credential.Some? && renewed.credential.value.token != token {
      var checked := Check(renewed, w);
      FetchIsJustified(checked.effects, checked.credential.value.token, w.replies(checked.fetches), Some(token));
      FinishIsJustified(Fetch(checked, w), w.replies(checked.fetches), w, nowMs);
    }
  }

  /** In every call a second fetch follows a 401 and carries another token, and the cache is written
      only after a fetch that was answered with windows. */
  lemma FetchesAreJustified(start: Progress, w: World, nowMs: nat)
    requires start.effects == []
    ensures var effects := Refresh(start, w, nowMs).0.effects;
            RetriesJustified(effects) && WritesAnswered(effects)
  {
    CheckIsFair(start, w, None);
    var started := Check(start, w);
    DiscoverIsFair(started, w, nowMs, None);
    var found := Discover(started, w, nowMs);
    CheckIsFair(found, w, None);
    CheckOnlyRecords(found, w);
    hide Discover, Check, Retry, Finish, LastCheckFailed;
    if found.credential.Some? {
      var checked, token := Check(found, w), found.credential.value.token;
      var reply := w.replies(checked.fetches);
      FetchIsJustified(checked.effects, token, reply, None);
      if reply == Unauthorized {
        RetryIsJustified(Fetch(checked, w), token, w, nowMs);
      } else {
        FinishIsJustified(Fetch(checked, w), reply, w, nowMs);
      }
    }
  }

  // ----- How often a call renews -----

  /** At most one renewal a call, whatever the outside answers: exactly while the clock can
      still move past the current reading. */
  lemma OneRenewalPerCall(nowMs: nat)
    requires nowMs <= U64_MAX
    ensures (forall start: Progress, w: World ::
               start.effects == [] && start.checks == 0 && start.fetches == 0
               ==> Renewals(Refresh(start, w, nowMs).0.effects) <= 1)
            <==> nowMs < U64_MAX
  {
    if nowMs < U64_MAX {
      forall start: Progress, w: World | start.effects == [] && start.checks == 0 && start.fetches == 0
        ensures Renewals(Refresh(start, w, nowMs).0.effects) <= 1
      {
        CallGuarantees(start, w, nowMs);
      }
    } else {
      var start, w := TwoRenewals();
    }
  }

  /** At the last clock reading the cooldown saturates and does not hold a second renewal off. */
  lemma TwoRenewals() returns (start: Progress, w: World)
    ensures start.effects == [] && start.checks == 0 && start.lookups == 0 && start.fetches == 0
    ensures Renewals(Refresh(start, w, U64_MAX).0.effects) > 1
  {
    start := Progress(None, 0, 0, [], 0, 0, 0);
    w := World(n => if n == 0 then None else Some(Credential("t", Some(0))), n => Windows, 3);
    TwiceAtTheEnd(start, w, Credential("t", Some(0)));
    hide Discover, Attempt;
    assert Refresh(start, w, U64_MAX).0.effects == TwoRenewalsTrace(Some(Credential("t", Some(0))));
    CountTwo(Some(Credential("t", Some(0))));
  }

  function TwoRenewalsTrace(expired: Option<Credential>): seq<Effect> {
    [Checked(false), Looked(None), Checked(false), Renewed, Looked(expired), Checked(false), Renewed, Looked(expired),
     Checked(true)]
  }

  lemma TwiceAtTheEnd(start: Progress, w: World, expired: Credential)
    requires start == Progress(None, 0, 0, [], 0, 0, 0)
    requires w.credentials(0) == None && w.credentials(1) == w.credentials(2) == Some(expired)
    requires w.abandonedFrom == 3 && expired.expiresAt == Some(0)
    ensures var p := Discover(Check(start, w), w, U64_MAX);
            p.credential.Some? && Attempt(p, w, U64_MAX).0.effects == TwoRenewalsTrace(Some(expired))
  {
    var read := ReadCredential(Check(start, w), w);
    var once := Renew(read, w, U64_MAX);
    assert once.effects == [Checked(false), Looked(None), Checked(false), Renewed, Looked(Some(expired))];
    var twice := Renew(once, w, U64_MAX);
    assert twice.effects == once.effects + [Checked(false), Renewed, Looked(Some(expired))];
  }

  lemma CountTwo(expired: Option<Credential>)
    ensures Renewals(TwoRenewalsTrace(expired)) == 2
  {
  }

  // ----- Any run of calls -----

  datatype Call = Call(w: World, nowMs: nat)

  /** An effect and the time of its call. */
  datatype Timed = Timed(nowMs: nat, effect: Effect)

  function NewCall(p: Progress): Progress {
    p.(effects := [], checks := 0, lookups := 0, fetches := 0)
  }

  function RunState(p: Progress, calls: seq<Call>): Progress {
    if calls == [] then p
    else
      var last := calls[|calls| - 1];
      Refresh(NewCall(RunState(p, calls[..|calls| - 1])), last.w, last.nowMs).0
  }

  function Stamp(effects: seq<Effect>, nowMs: nat): (timed: seq<Timed>)
    ensures |timed| == |effects|
    ensures forall i :: 0 <= i < |timed| ==> timed[i] == Timed(nowMs, effects[i])
  {
    seq(|effects|, i requires 0 <= i < |effects| => Timed(nowMs, effects[i]))
  }

  function History(p: Progress, calls: seq<Call>): seq<Timed> {
    if calls == [] then []
    else
      var earlier := calls[..|calls| - 1];
      History(p, earlier) + Stamp(RunState(p, calls).effects, calls[|calls| - 1].nowMs)
  }

  /** Clock readings of a run: nondecreasing, and none past `limit`. */
  ghost predicate Ordered(calls: seq<Call>, limit: nat) {
    && (forall i, j :: 0 <= i < j < |calls| ==> calls[i].nowMs <= calls[j].nowMs)
    && (forall i :: 0 <= i < |calls| ==> calls[i].nowMs <= limit)
  }

  /** The cooldown fields cover every renewal and every rate limit so far. */
  ghost predicate Covered(history: seq<Timed>, p: Progress) {
    && (forall i :: 0 <= i < |history| && history[i].effect == Renewed ==>
          SaturatingAdd(history[i].nowMs, REFRESH_COOLDOWN_MS) <= p.refreshAfter)
    && (forall i :: 0 <= i < |history| && IsRateLimit(history[i].effect) ==>
          SaturatingAdd(history[i].nowMs, RETRY_AFTER_MS) <= p.retryAfter)
  }

  /** Renewals start at least 60 s apart, and no fetch happens within 60 s of a rate limit. */
  ghost predicate Spaced(history: seq<Timed>) {
    && (forall i, j :: 0 <= i < j < |history| && history[i].effect == Renewed && history[j].effect == Renewed ==>
          history[i].nowMs + REFRESH_COOLDOWN_MS <= history[j].nowMs)
    && (forall i, j :: 0 <= i < j < |history| && IsRateLimit(history[i].effect)
                       && history[j].effect.Fetched? ==>
          history[i].nowMs + RETRY_AFTER_MS <= history[j].nowMs)
  }

  lemma RenewedTwice(effects: seq<Effect>, i: nat, j: nat)
    requires i < j < |effects| && effects[i] == effects[j] == Renewed
    ensures Renewals(effects) >= 2
  {
    var a, b := effects[..j], effects[j..];
    assert effects == a + b;
    assert a[i] == Renewed && b[0] == Renewed;
    assert Renewed in multiset(a) && Renewed in multiset(b);
  }

  lemma {:induction false} FetchesPositive(effects: seq<Effect>, i: nat)
    requires i < |effects| && effects[i].Fetched?
    ensures Fetches(effects) > 0
  {
    if i < |effects| - 1 {
      FetchesPositive(effects[..|effects| - 1], i);
    }
  }

  /** Any run of calls whose clock stops short of its last reading is spaced. */
  lemma {:induction false} RunIsSpaced(start: Progress, calls: seq<Call>, limit: nat)
    requires Ordered(calls, limit) && limit < U64_MAX
    ensures Spaced(History(start, calls)) && Covered(History(start, calls), RunState(start, calls))
  {
    if calls != [] {
      var n := |calls| - 1;
      var earlier := calls[..n];
      hide Refresh, Spaced, Covered, Over, Fetches;
      RunIsSpaced(start, earlier, limit);
      NewCallIsCovered(History(start, earlier), RunState(start, earlier));
      CallGuarantees(NewCall(RunState(start, earlier)), calls[n].w, calls[n].nowMs);
      ExtendSpaced(History(start, earlier), NewCall(RunState(start, earlier)), RunState(start, calls), calls[n]);
    }
  }

  lemma NewCallIsCovered(history: seq<Timed>, p: Progress)
    requires Covered(history, p)
    ensures Covered(history, NewCall(p))
  {
  }

  lemma ExtendSpaced(history: seq<Timed>, start: Progress, p: Progress, call: Call)
    requires Spaced(history) && Covered(history, start)
    requires call.nowMs < U64_MAX
    requires Over(p, start, call.w, call.nowMs)
    requires Fetches(p.effects) > 0 ==> start.retryAfter <= call.nowMs
    ensures Spaced(history + Stamp(p.effects, call.nowMs)) && Covered(history + Stamp(p.effects, call.nowMs), p)
  {
    forall k | 0 <= k < |p.effects| && p.effects[k] == Renewed
      ensures start.refreshAfter <= call.nowMs && p.refreshAfter == SaturatingAdd(call.nowMs, REFRESH_COOLDOWN_MS)
    {
      assert Renewed in multiset(p.effects);
    }
    forall k | 0 <= k < |p.effects| && p.effects[k].Fetched?
      ensures start.retryAfter <= call.nowMs
    {
      FetchesPositive(p.effects, k);
    }
    forall i, j | 0 <= i < j < |p.effects| && p.effects[i] == Renewed
      ensures p.effects[j] != Renewed
    {
      if p.effects[j] == Renewed {
        RenewedTwice(p.effects, i, j);
      }
    }
  }

  /** Every run with readings up to `limit` is spaced, exactly while `limit` is not the last
      reading of the clock. */
  lemma SpacedUpTo(limit: nat)
    requires limit <= U64_MAX
    ensures (forall start: Progress, calls: seq<Call> :: Ordered(calls, limit) ==> Spaced(History(start, calls)))
            <==> limit < U64_MAX
  {
    if limit < U64_MAX {
      forall start: Progress, calls: seq<Call> | Ordered(calls, limit)
        ensures Spaced(History(start, calls))
      {
        RunIsSpaced(start, calls, limit);
      }
    } else {
      var start, calls := CrowdedRun();
    }
  }

  /** One call at the last reading renews twice at once. */
  lemma CrowdedRun() returns (start: Progress, calls: seq<Call>)
    ensures Ordered(calls, U64_MAX) && !Spaced(History(start, calls))
  {
    var w: World;
    start, w := TwoRenewals();
    hide Refresh, Spaced;
    calls := [Call(w, U64_MAX)];
    assert NewCall(start) == start;
    OneCall(start, Call(w, U64_MAX));
    TwiceIsCrowded(Refresh(NewCall(start), w, U64_MAX).0.effects, U64_MAX);
  }

  lemma OneCall(start: Progress, call: Call)
    ensures History(start, [call]) == Stamp(Refresh(NewCall(start), call.w, call.nowMs).0.effects, call.nowMs)
  {
    hide Refresh;
    assert [call][..0] == [];
    assert RunState(start, []) == start && History(start, []) == [];
  }

  lemma TwiceIsCrowded(effects: seq<Effect>, nowMs: nat)
    requires Renewals(effects) > 1
    ensures !Spaced(Stamp(effects, nowMs))
  {
    var i, j := TwoAt(effects);
    var history := Stamp(effects, nowMs);
    assert history[i].effect == Renewed && history[j].effect == Renewed;
  }

  lemma {:induction false} TwoAt(effects: seq<Effect>) returns (i: nat, j: nat)
    requires Renewals(effects) > 1
    ensures i < j < |effects| && effects[i] == effects[j] == Renewed
  {
    var n := |effects| - 1;
    assert effects == effects[..n] + [effects[n]];
    if effects[n] == Renewed {
      assert Renewed in multiset(effects[..n]);
      var k :| 0 <= k < n && effects[..n][k] == Renewed;
      i, j := k, n;
    } else {
      i, j := TwoAt(effects[..n]);
    }
  }
}
