/** `PendingDecision` of `crates/core/src/lib.rs`: a proposed decision with an undo window and
    a deadline, under whatever clock readings its callers have. */
module PendingDecisions {
  import opened Options

  const COMMIT_DELAY_MS := 3_000

  datatype Decision = Allow | Deny

  datatype State = Open | Committing(decision: Decision) | DecisionSent(decision: Decision) | PassedThrough | Expired

  datatype Request = Request(state: State, deadlineAt: nat, commitDueAt: Option<nat>)

  datatype Operation =
    | Propose(decision: Decision, now: nat)
    | Undo(now: nat)
    | PassThrough(now: nat)
    | TakeDue(now: nat)

  datatype Reply = Accepted | Stale | NotOpen | NotUndoable | Due(decision: Decision) | NotDue

  function Step(r: Request, op: Operation): (Request, Reply) {
    match op
    case Propose(decision, now) =>
      var dueAt := SaturatingAdd(now, COMMIT_DELAY_MS);
      if r.state != Open then (r, NotOpen)
      else if now >= r.deadlineAt || dueAt >= r.deadlineAt then (r.(state := Expired), Stale)
      else (r.(state := Committing(decision), commitDueAt := Some(dueAt)), Accepted)
    case Undo(now) =>
      if !r.state.Committing? || r.commitDueAt.None? || now >= r.commitDueAt.value then (r, NotUndoable)
      else (r.(state := Open, commitDueAt := None), Accepted)
    case PassThrough(now) =>
      if now >= r.deadlineAt then (r.(state := Expired), Stale)
      else if !(r.state.Open? || r.state.Committing?) then (r, NotOpen)
      else (r.(state := PassedThrough, commitDueAt := None), Accepted)
    case TakeDue(now) =>
      if now >= r.deadlineAt then
        var kept := r.state.DecisionSent? || r.state.PassedThrough?;
        (if kept then r else r.(state := Expired, commitDueAt := None), NotDue)
      else if r.state.Committing? && r.commitDueAt.Some? && now >= r.commitDueAt.value then
        (r.(state := DecisionSent(r.state.decision), commitDueAt := None), Due(r.state.decision))
      else (r, NotDue)
  }

  /** A committing request is due before its deadline, and an open, sent or passed one is not due. */
  predicate Sound(r: Request) {
    match r.state
    case Committing(_) => r.commitDueAt.Some? && r.commitDueAt.value < r.deadlineAt
    case Expired => true
    case _ => r.commitDueAt.None?
  }

  class PendingDecision {
    const requestId: nat
    const createdAt: nat
    const deadlineAt: nat
    var state: State
    var commitDueAt: Option<nat>

    ghost function View(): Request
      reads this
    {
      Request(state, deadlineAt, commitDueAt)
    }

    ghost predicate Valid()
      reads this
    {
      Sound(View())
    }

    constructor (requestId: nat, createdAt: nat, deadlineAt: nat)
      ensures Valid() && View() == New(deadlineAt) && this.requestId == requestId && this.createdAt == createdAt
    {
      this.requestId, this.createdAt, this.deadlineAt := requestId, createdAt, deadlineAt;
      state, commitDueAt := Open, None;
    }

    method Propose(decision: Decision, now: nat) returns (reply: Reply)
      requires Valid()
      modifies this
      ensures Valid() && (View(), reply) == Step(old(View()), Operation.Propose(decision, now))
    {
      if state != Open {
        return NotOpen;
      }
      var dueAt := SaturatingAdd(now, COMMIT_DELAY_MS);
      if now >= deadlineAt || dueAt >= deadlineAt {
        state := Expired;
        return Stale;
      }
      state := Committing(decision);
      commitDueAt := Some(dueAt);
      return Accepted;
    }

    method Undo(now: nat) returns (reply: Reply)
      requires Valid()
      modifies this
      ensures Valid() && (View(), reply) == Step(old(View()), Operation.Undo(now))
    {
      if !state.Committing? || commitDueAt.None? || now >= commitDueAt.value {
        return NotUndoable;
      }
      state, commitDueAt := Open, None;
      return Accepted;
    }

    method PassThrough(now: nat) returns (reply: Reply)
      requires Valid()
      modifies this
      ensures Valid() && (View(), reply) == Step(old(View()), Operation.PassThrough(now))
    {
      if now >= deadlineAt {
        state := Expired;
        return Stale;
      }
      if !state.Open? && !state.Committing? {
        return NotOpen;
      }
      state, commitDueAt := PassedThrough, None;
      return Accepted;
    }

    method TakeDue(now: nat) returns (reply: Reply)
      requires Valid()
      modifies this
      ensures Valid() && (View(), reply) == Step(old(View()), Operation.TakeDue(now))
    {
      if now >= deadlineAt {
        if !state.DecisionSent? && !state.PassedThrough? {
          state, commitDueAt := Expired, None;
        }
        return NotDue;
      }
      if !state.Committing? {
        return NotDue;
      }
      var decision := state.decision;
      if commitDueAt.Some? && now >= commitDueAt.value {
        state, commitDueAt := DecisionSent(decision), None;
        return Due(decision);
      }
      return NotDue;
    }
  }

  // ----- Runs -----

  function New(deadlineAt: nat): Request {
    Request(Open, deadlineAt, None)
  }

  function After(deadlineAt: nat, ops: seq<Operation>): Request {
    if ops == [] then New(deadlineAt) else Step(After(deadlineAt, ops[..|ops| - 1]), ops[|ops| - 1]).0
  }

  /** The reply operation `k` of a run gets. */
  function ReplyTo(deadlineAt: nat, ops: seq<Operation>, k: nat): Reply
    requires k < |ops|
  {
    Step(After(deadlineAt, ops[..k]), ops[k]).1
  }

  ghost predicate Clocked(deadlineAt: nat, ops: seq<Operation>) {
    deadlineAt <= U64_MAX && forall k :: 0 <= k < |ops| ==> ops[k].now <= U64_MAX
  }

  /** Operation `i` ends a proposal before it: undone, passed through, sent or expired. */
  predicate Settles(deadlineAt: nat, ops: seq<Operation>, i: nat)
    requires i < |ops|
  {
    var reply := ReplyTo(deadlineAt, ops, i);
    reply.Accepted? || reply.Stale? || reply.Due? || (ops[i].TakeDue? && ops[i].now >= deadlineAt)
  }

  /** `ops[j]` proposed `decision`, was accepted, and nothing before `n` settled it. */
  ghost predicate Live(deadlineAt: nat, ops: seq<Operation>, j: int, n: nat, decision: Decision)
    requires n <= |ops|
  {
    && 0 <= j < n && ops[j].Propose? && ops[j].decision == decision
    && ReplyTo(deadlineAt, ops, j) == Accepted
    && forall i :: j < i < n ==> !Settles(deadlineAt, ops, i)
  }

  predicate Finished(s: State) {
    s.DecisionSent? || s.PassedThrough? || s.Expired?
  }

  lemma AfterOneMore(deadlineAt: nat, ops: seq<Operation>, n: nat)
    requires n < |ops|
    ensures After(deadlineAt, ops[..n + 1]) == Step(After(deadlineAt, ops[..n]), ops[n]).0
  {
    assert ops[..n + 1][..n] == ops[..n];
  }

  /** Committing means exactly that some proposal is live; it is due 3000 ms after it was
      made, before the deadline. */
  lemma {:induction false} CommittingIsLive(deadlineAt: nat, ops: seq<Operation>, n: nat, decision: Decision)
    requires Clocked(deadlineAt, ops) && n <= |ops|
    ensures After(deadlineAt, ops[..n]).deadlineAt == deadlineAt
    ensures After(deadlineAt, ops[..n]).state == Committing(decision) ==>
            exists j :: Live(deadlineAt, ops, j, n, decision)
    ensures forall j :: Live(deadlineAt, ops, j, n, decision) ==>
              Pending(After(deadlineAt, ops[..n]), decision, ops[j].now)
  {
    if n > 0 {
      CommittingIsLive(deadlineAt, ops, n - 1, decision);
      var before, next := After(deadlineAt, ops[..n - 1]), After(deadlineAt, ops[..n]);
      assert next == Step(before, ops[n - 1]).0 by { AfterOneMore(deadlineAt, ops, n - 1); }
      StepFacts(before, ops[n - 1]);
      hide Step, After;
      if next.state == Committing(decision) {
        CommittingHasProposal(deadlineAt, ops, n - 1, n, decision);
      }
      forall j | Live(deadlineAt, ops, j, n, decision)
        ensures Pending(After(deadlineAt, ops[..n]), decision, ops[j].now)
      {
        if j < n - 1 {
          assert Live(deadlineAt, ops, j, n - 1, decision);
          assert !Settles(deadlineAt, ops, n - 1);
        }
      }
    }
  }

  /** Committing to a decision proposed at `now`. */
  predicate Pending(r: Request, decision: Decision, now: nat) {
    r.state == Committing(decision) && r.commitDueAt == Some(now + COMMIT_DELAY_MS)
    && now + COMMIT_DELAY_MS < r.deadlineAt
  }

  lemma StepFacts(r: Request, op: Operation)
    requires r.deadlineAt <= U64_MAX
    ensures var (next, reply) := Step(r, op);
            && next.deadlineAt == r.deadlineAt
            && (op.Propose? && reply.Accepted? ==> Pending(next, op.decision, op.now))
            && (r.state.Committing? ==>
                  reply.Accepted? || reply.Stale? || reply.Due? || (op.TakeDue? && op.now >= r.deadlineAt) || next == r)
  {
  }

  lemma CommittingHasProposal(deadlineAt: nat, ops: seq<Operation>, m: nat, n: nat, decision: Decision)
    requires m + 1 == n <= |ops| && After(deadlineAt, ops[..n]).state == Committing(decision)
    requires After(deadlineAt, ops[..m]).deadlineAt == deadlineAt
    requires After(deadlineAt, ops[..m]).state == Committing(decision) ==>
               exists j :: Live(deadlineAt, ops, j, m, decision)
    ensures exists j :: Live(deadlineAt, ops, j, n, decision)
  {
    AfterOneMore(deadlineAt, ops, m);
    if ops[m].Propose? && ReplyTo(deadlineAt, ops, m) == Accepted {
      assert Live(deadlineAt, ops, m, n, decision);
    } else {
      assert !Settles(deadlineAt, ops, m);
      var j :| Live(deadlineAt, ops, j, m, decision);
      assert Live(deadlineAt, ops, j, n, decision);
    }
  }

  /** `take_due` yields a decision exactly for a live proposal of it, at a reading at least
      3000 ms after the proposal and before the deadline. */
  lemma TakenWhenDue(deadlineAt: nat, ops: seq<Operation>, k: nat, decision: Decision)
    requires Clocked(deadlineAt, ops) && k < |ops|
    ensures ReplyTo(deadlineAt, ops, k) == Due(decision)
            <==> ops[k].TakeDue? && ops[k].now < deadlineAt
                 && exists j :: Live(deadlineAt, ops, j, k, decision) && ops[j].now + COMMIT_DELAY_MS <= ops[k].now
  {
    CommittingIsLive(deadlineAt, ops, k, decision);
    var before := After(deadlineAt, ops[..k]);
    if ReplyTo(deadlineAt, ops, k) == Due(decision) {
      var j :| Live(deadlineAt, ops, j, k, decision);
    }
  }

  /** An undo is accepted exactly for a live proposal, at a reading less than 3000 ms after it. */
  lemma UndoneInTime(deadlineAt: nat, ops: seq<Operation>, k: nat)
    requires Clocked(deadlineAt, ops) && k < |ops| && ops[k].Undo?
    ensures ReplyTo(deadlineAt, ops, k) == Accepted
            <==> exists j, d :: Live(deadlineAt, ops, j, k, d) && ops[k].now < ops[j].now + COMMIT_DELAY_MS
  {
    forall d: Decision
      ensures After(deadlineAt, ops[..k]).state == Committing(d) ==> exists j :: Live(deadlineAt, ops, j, k, d)
      ensures forall j :: Live(deadlineAt, ops, j, k, d) ==> Pending(After(deadlineAt, ops[..k]), d, ops[j].now)
    {
      CommittingIsLive(deadlineAt, ops, k, d);
    }
    hide After;
    var before := After(deadlineAt, ops[..k]);
    if ReplyTo(deadlineAt, ops, k) == Accepted {
      var d := before.state.decision;
      var j :| Live(deadlineAt, ops, j, k, d);
    }
    if j, d :| Live(deadlineAt, ops, j, k, d) && ops[k].now < ops[j].now + COMMIT_DELAY_MS {
      assert Pending(before, d, ops[j].now);
    }
  }

  // ----- Every state and every reply -----

  /** The reply of every operation. A proposal is accepted exactly while the request is open and more
      than 3000 ms are left, and otherwise finds it too late or not open; a pass-through is accepted
      exactly in time and before the end, and too late for good at the deadline. */
  lemma RepliesMean(deadlineAt: nat, ops: seq<Operation>, k: nat)
    requires Clocked(deadlineAt, ops) && k < |ops|
    ensures var s, reply, now := After(deadlineAt, ops[..k]).state, ReplyTo(deadlineAt, ops, k), ops[k].now;
            match ops[k]
            case Propose(_, _) =>
              && (reply == Accepted <==> s == Open && now + 3_000 < deadlineAt)
              && (reply == Stale <==> s == Open && now + 3_000 >= deadlineAt)
              && (reply == NotOpen <==> s != Open)
            case Undo(_) => reply == Accepted || reply == NotUndoable
            case PassThrough(_) =>
              && (reply == Accepted <==> now < deadlineAt && (s == Open || s.Committing?))
              && (reply == Stale <==> now >= deadlineAt)
              && (reply == NotOpen <==> now < deadlineAt && s != Open && !s.Committing?)
            case TakeDue(_) => reply.Due? || reply == NotDue
  {
    CommittingIsLive(deadlineAt, ops, k, Allow);
    hide After;
  }

  /** Operation `k` took decision `d`. */
  ghost predicate Takes(deadlineAt: nat, ops: seq<Operation>, k: int, d: Decision) {
    0 <= k < |ops| && ReplyTo(deadlineAt, ops, k) == Due(d)
  }

  /** Operation `k` passed the request on to the terminal. */
  ghost predicate Passes(deadlineAt: nat, ops: seq<Operation>, k: int) {
    0 <= k < |ops| && ops[k].PassThrough? && ReplyTo(deadlineAt, ops, k) == Accepted
  }

  /** No operation from `k` to `n` came too late. */
  ghost predicate NoneStale(deadlineAt: nat, ops: seq<Operation>, k: int, n: nat)
    requires 0 <= k && n <= |ops|
  {
    forall i :: k < i < n ==> ReplyTo(deadlineAt, ops, i) != Stale
  }

  /** Operation `k` came too late, or looked too late for a decision that was neither sent nor passed on. */
  ghost predicate Expires(deadlineAt: nat, ops: seq<Operation>, k: int) {
    && 0 <= k < |ops|
    && (|| ReplyTo(deadlineAt, ops, k) == Stale
        || (&& ops[k].TakeDue? && ops[k].now >= deadlineAt
            && !After(deadlineAt, ops[..k]).state.DecisionSent? && After(deadlineAt, ops[..k]).state != PassedThrough))
  }

  ghost predicate TakenFor(deadlineAt: nat, ops: seq<Operation>, n: nat, d: Decision)
    requires n <= |ops|
  {
    exists k :: 0 <= k < n && Takes(deadlineAt, ops, k, d) && NoneStale(deadlineAt, ops, k, n)
  }

  ghost predicate PassedFor(deadlineAt: nat, ops: seq<Operation>, n: nat)
    requires n <= |ops|
  {
    exists k :: 0 <= k < n && Passes(deadlineAt, ops, k) && NoneStale(deadlineAt, ops, k, n)
  }

  ghost predicate ExpiredFor(deadlineAt: nat, ops: seq<Operation>, n: nat)
    requires n <= |ops|
  {
    exists k :: 0 <= k < n && Expires(deadlineAt, ops, k)
  }

  /** Every state, by the operations so far and their replies: sent once a decision was taken, and
      passed through once that was accepted, until something comes too late; expired once something
      did; committing while a proposal is live; and open otherwise. */
  lemma {:induction false} StateMeans(deadlineAt: nat, ops: seq<Operation>, n: nat)
    requires Clocked(deadlineAt, ops) && n <= |ops|
    ensures var s := After(deadlineAt, ops[..n]).state;
            && (forall d :: s == DecisionSent(d) <==> TakenFor(deadlineAt, ops, n, d))
            && (s == PassedThrough <==> PassedFor(deadlineAt, ops, n))
            && (s == Expired <==> ExpiredFor(deadlineAt, ops, n))
            && (forall d :: s == Committing(d) <==> exists j :: Live(deadlineAt, ops, j, n, d))
    ensures n == 0 ==> After(deadlineAt, ops[..n]).state == Open
  {
    forall d: Decision
      ensures After(deadlineAt, ops[..n]).state == Committing(d) <==> exists j :: Live(deadlineAt, ops, j, n, d)
    {
      CommittingIsLive(deadlineAt, ops, n, d);
    }
    if n > 0 {
      hide After, Step, Live, TakenFor, PassedFor, ExpiredFor;
      StateMeans(deadlineAt, ops, n - 1);
      StateStep(deadlineAt, ops, n - 1);
      HistoryStep(deadlineAt, ops, n - 1, n);
    }
  }

  lemma StateStep(deadlineAt: nat, ops: seq<Operation>, m: nat)
    requires Clocked(deadlineAt, ops) && m < |ops|
    ensures var s, t := After(deadlineAt, ops[..m]).state, After(deadlineAt, ops[..m + 1]).state;
            var stale := ReplyTo(deadlineAt, ops, m) == Stale;
            && (forall d :: t == DecisionSent(d) <==> Takes(deadlineAt, ops, m, d) || (s == DecisionSent(d) && !stale))
            && (t == PassedThrough <==> Passes(deadlineAt, ops, m) || (s == PassedThrough && !stale))
            && (t == Expired <==> Expires(deadlineAt, ops, m) || s == Expired)
  {
    CommittingIsLive(deadlineAt, ops, m, Allow);
    AfterOneMore(deadlineAt, ops, m);
    hide After;
  }

  lemma HistoryStep(deadlineAt: nat, ops: seq<Operation>, m: nat, n: nat)
    requires m + 1 == n <= |ops|
    ensures var stale := ReplyTo(deadlineAt, ops, m) == Stale;
            && (forall d :: TakenFor(deadlineAt, ops, n, d)
                            <==> Takes(deadlineAt, ops, m, d) || (TakenFor(deadlineAt, ops, m, d) && !stale))
            && (PassedFor(deadlineAt, ops, n)
                <==> Passes(deadlineAt, ops, m) || (PassedFor(deadlineAt, ops, m) && !stale))
            && (ExpiredFor(deadlineAt, ops, n) <==> Expires(deadlineAt, ops, m) || ExpiredFor(deadlineAt, ops, m))
  {
    hide Takes, Passes, Expires, ReplyTo;
    forall k: nat | k < m
      ensures NoneStale(deadlineAt, ops, k, n)
              <==> NoneStale(deadlineAt, ops, k, m) && ReplyTo(deadlineAt, ops, m) != Stale
    {
    }
    assert NoneStale(deadlineAt, ops, m, n);
  }

  /** The live proposal is the last accepted one. */
  lemma LiveIsLast(deadlineAt: nat, ops: seq<Operation>, n: nat, i: int, j: int, d: Decision, e: Decision)
    requires n <= |ops| && Live(deadlineAt, ops, i, n, d) && Live(deadlineAt, ops, j, n, e)
    ensures i == j && d == e
  {
    assert i < j ==> Settles(deadlineAt, ops, j);
    assert j < i ==> Settles(deadlineAt, ops, i);
  }

  /** A finished request never becomes open or committing again. */
  lemma {:induction false} FinishedStays(deadlineAt: nat, ops: seq<Operation>, m: nat, n: nat)
    requires m <= n <= |ops| && Finished(After(deadlineAt, ops[..m]).state)
    ensures Finished(After(deadlineAt, ops[..n]).state)
    decreases n
  {
    if m < n {
      FinishedStays(deadlineAt, ops, m, n - 1);
      AfterOneMore(deadlineAt, ops, n - 1);
    }
  }

  /** At most one decision is ever taken. */
  lemma TakenOnce(deadlineAt: nat, ops: seq<Operation>, i: nat, k: nat)
    requires i < |ops| && k < |ops|
    requires ReplyTo(deadlineAt, ops, i).Due? && ReplyTo(deadlineAt, ops, k).Due?
    ensures i == k
  {
    AfterOneMore(deadlineAt, ops, i);
    AfterOneMore(deadlineAt, ops, k);
    if i < k {
      FinishedStays(deadlineAt, ops, i + 1, k);
    } else if k < i {
      FinishedStays(deadlineAt, ops, k + 1, i);
    }
  }

  /** What a finished request may still become: a late pass-through turns even a sent decision
      into an expired one; nothing else changes it, and an expired one stays. */
  lemma FinishedChanges(r: Request, op: Operation)
    requires Finished(r.state)
    ensures Step(r, op).0.state == if op.PassThrough? && op.now >= r.deadlineAt then Expired else r.state
  {
  }

  /** A decision proposed at 0 and taken at 3000 is expired by a pass-through at the deadline. */
  lemma SentThenExpired()
    ensures var ops := [Propose(Allow, 0), TakeDue(3_000), PassThrough(10_000)];
            && ReplyTo(10_000, ops, 1) == Due(Allow)
            && After(10_000, ops[..2]).state == DecisionSent(Allow) && After(10_000, ops).state == Expired
  {
    var ops := [Propose(Allow, 0), TakeDue(3_000), PassThrough(10_000)];
    assert ops[..0] == [] && ops[..3] == ops;
    AfterOneMore(10_000, ops, 0);
    AfterOneMore(10_000, ops, 1);
    AfterOneMore(10_000, ops, 2);
  }
}
