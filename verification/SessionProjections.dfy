/** `SessionProjection` of `crates/core/src/lib.rs`: a session's execution state folded from
    its events and from the decisions sent to it. */
module SessionProjections {
  import opened Options
  import opened PendingDecisions

  datatype EventKind =
    | SessionStarted | SessionEnded | PromptSubmitted | ToolStarted | ToolFinished | ToolFailed
    | PermissionRequested | PermissionDenied | QuestionRequested | ElicitationRequested | Notification
    | SubagentStarted | SubagentStopped | TaskCreated | TaskCompleted | PlanUpdated
    | AutoReviewStarted | AutoReviewCompleted | Compacting | Stopped | Interrupted | Failed | Unknown

  datatype ExecState =
    | Idle | Thinking | ToolRunning | AwaitingApproval | CompactingContext | ResponseFinished | HasFailed

  datatype Owner = Widget | Terminal

  datatype Projection = Projection(exec: ExecState, owner: Option<Owner>, lastEventAt: nat,
                                   sentAt: Option<nat>, sent: Option<Decision>, confirmed: bool)

  const INITIAL := Projection(Idle, None, 0, None, None, false)

  predicate IsTerminal(s: ExecState) {
    s == ResponseFinished || s == HasFailed
  }

  predicate Restarts(e: EventKind) {
    e == PromptSubmitted || e == SessionStarted || e == SessionEnded
  }

  /** An event `apply` returns from without effect. */
  predicate Ignored(p: Projection, e: EventKind, at: nat) {
    at < p.lastEventAt || (IsTerminal(p.exec) && !Restarts(e))
  }

  predicate Confirms(e: EventKind, d: Decision) {
    (d == Allow && e == ToolFinished) || (d == Deny && e == PermissionDenied)
  }

  function Apply(p: Projection, e: EventKind, at: nat): Projection {
    if Ignored(p, e, at) then p
    else
      var q := if p.sent.Some? && Confirms(e, p.sent.value) then p.(confirmed := true, owner := None) else p;
      Enter(q, e).(lastEventAt := at)
  }

  /** The state an event enters. */
  function Enter(q: Projection, e: EventKind): Projection {
    match e
    case SessionStarted | SessionEnded => q.(exec := Idle, owner := None)
    case PromptSubmitted => q.(exec := Thinking, owner := None, sentAt := None, sent := None, confirmed := false)
    case ToolStarted => q.(exec := ToolRunning)
    case ToolFinished | ToolFailed => q.(exec := Thinking)
    case PermissionRequested =>
      q.(exec := AwaitingApproval, owner := Some(Widget), sentAt := None, sent := None, confirmed := false)
    case QuestionRequested | ElicitationRequested => q.(exec := AwaitingApproval, owner := Some(Widget))
    case PermissionDenied => q.(exec := Thinking, owner := None)
    case Compacting => q.(exec := CompactingContext)
    case Stopped => q.(exec := ResponseFinished)
    case Interrupted | Failed => q.(exec := HasFailed)
    case _ => q
  }

  function MarkSent(p: Projection, d: Decision, at: nat): Projection {
    if p.exec == AwaitingApproval then p.(sentAt := Some(at), sent := Some(d), confirmed := false) else p
  }

  function PassToTerminal(p: Projection): Projection {
    if p.exec == AwaitingApproval && p.sentAt.None? then p.(owner := Some(Terminal)) else p
  }

  /** Awaited approval has an owner, and only a decision sent at some time can be confirmed. */
  predicate Consistent(p: Projection) {
    && (p.exec == AwaitingApproval ==> p.owner.Some?)
    && (p.sent.Some? <==> p.sentAt.Some?)
    && (p.confirmed ==> p.sent.Some?)
  }

  lemma ApplyKeeps(p: Projection, e: EventKind, at: nat)
    requires Consistent(p)
    ensures Consistent(Apply(p, e, at))
  {
  }

  class SessionProjection {
    var execState: ExecState
    var approvalOwner: Option<Owner>
    var lastEventAt: nat
    var decisionSentAt: Option<nat>
    var decisionSent: Option<Decision>
    var decisionConfirmed: bool

    ghost function View(): Projection
      reads this
    {
      Projection(execState, approvalOwner, lastEventAt, decisionSentAt, decisionSent, decisionConfirmed)
    }

    ghost predicate Valid()
      reads this
    {
      Consistent(View())
    }

    constructor ()
      ensures Valid() && View() == INITIAL
    {
      execState, approvalOwner, lastEventAt := Idle, None, 0;
      decisionSentAt, decisionSent, decisionConfirmed := None, None, false;
    }

    method ApplyEvent(event: EventKind, occurredAt: nat)
      requires Valid()
      modifies this
      ensures Valid() && View() == Apply(old(View()), event, occurredAt)
    {
      ApplyKeeps(View(), event, occurredAt);
      hide Enter, Restarts, Confirms, IsTerminal, Consistent;
      if occurredAt < lastEventAt {
        return;
      }
      if IsTerminal(execState) && !Restarts(event) {
        return;
      }
      if decisionSent.Some? && Confirms(event, decisionSent.value) {
        decisionConfirmed := true;
        approvalOwner := None;
      }
      Move(event);
      lastEventAt := occurredAt;
    }

    method Move(event: EventKind)
      modifies this
      ensures View() == Enter(old(View()), event)
    {
      match event {
        case SessionStarted | SessionEnded =>
          execState := Idle;
          approvalOwner := None;
        case PromptSubmitted =>
          execState := Thinking;
          approvalOwner := None;
          decisionSentAt, decisionSent, decisionConfirmed := None, None, false;
        case ToolStarted =>
          execState := ToolRunning;
        case ToolFinished | ToolFailed =>
          execState := Thinking;
        case PermissionRequested =>
          execState := AwaitingApproval;
          approvalOwner := Some(Widget);
          decisionSentAt, decisionSent, decisionConfirmed := None, None, false;
        case QuestionRequested | ElicitationRequested =>
          execState := AwaitingApproval;
          approvalOwner := Some(Widget);
        case PermissionDenied =>
          execState := Thinking;
          approvalOwner := None;
        case Compacting =>
          execState := CompactingContext;
        case Stopped =>
          execState := ResponseFinished;
        case Interrupted | Failed =>
          execState := HasFailed;
        case _ =>
      }
    }

    method MarkDecisionSent(decision: Decision, occurredAt: nat)
      requires Valid()
      modifies this
      ensures Valid() && View() == MarkSent(old(View()), decision, occurredAt)
    {
      if execState == AwaitingApproval {
        decisionSentAt, decisionSent, decisionConfirmed := Some(occurredAt), Some(decision), false;
      }
    }

    method PassThrough()
      requires Valid()
      modifies this
      ensures Valid() && View() == PassToTerminal(old(View()))
    {
      if execState == AwaitingApproval && decisionSentAt.None? {
        approvalOwner := Some(Terminal);
      }
    }
  }

  // ----- Runs -----

  datatype Input = Event(kind: EventKind, at: nat) | Sent(decision: Decision, at: nat) | PassedOn

  function Step(p: Projection, i: Input): Projection {
    match i
    case Event(kind, at) => Apply(p, kind, at)
    case Sent(decision, at) => MarkSent(p, decision, at)
    case PassedOn => PassToTerminal(p)
  }

  function Run(inputs: seq<Input>): Projection {
    if inputs == [] then INITIAL else Step(Run(inputs[..|inputs| - 1]), inputs[|inputs| - 1])
  }

  lemma RunOneMore(inputs: seq<Input>, n: nat)
    requires n < |inputs|
    ensures Run(inputs[..n + 1]) == Step(Run(inputs[..n]), inputs[n])
  {
    assert inputs[..n + 1][..n] == inputs[..n];
  }

  predicate IsIgnored(p: Projection, i: Input) {
    i.Event? && Ignored(p, i.kind, i.at)
  }

  /** The run without its ignored events. */
  function Effective(inputs: seq<Input>): seq<Input> {
    if inputs == [] then []
    else
      var front, last := inputs[..|inputs| - 1], inputs[|inputs| - 1];
      Effective(front) + (if IsIgnored(Run(front), last) then [] else [last])
  }

  /** Leaving ignored events out changes nothing, and leaves no ignored event. */
  lemma {:induction false} IgnoredLeaveNoTrace(inputs: seq<Input>)
    ensures Run(Effective(inputs)) == Run(inputs)
    ensures Effective(Effective(inputs)) == Effective(inputs)
  {
    if inputs != [] {
      hide Step, IsIgnored, Run, Effective;
      var front, last := inputs[..|inputs| - 1], inputs[|inputs| - 1];
      assert inputs == front + [last];
      IgnoredLeaveNoTrace(front);
      IgnoredLast(front, last);
    }
  }

  lemma IgnoredLast(front: seq<Input>, last: Input)
    requires Run(Effective(front)) == Run(front) && Effective(Effective(front)) == Effective(front)
    ensures Run(Effective(front + [last])) == Run(front + [last])
    ensures Effective(Effective(front + [last])) == Effective(front + [last])
  {
    hide Step, IsIgnored, Run, Effective;
    EffectiveOfLast(front, last);
    EffectiveOfLast(Effective(front), last);
    IgnoredStep(Run(front), last);
  }

  lemma IgnoredStep(p: Projection, i: Input)
    ensures IsIgnored(p, i) ==> Step(p, i) == p
  {
  }

  lemma EffectiveOfLast(front: seq<Input>, last: Input)
    ensures Run(front + [last]) == Step(Run(front), last)
    ensures Effective(front + [last])
         == if IsIgnored(Run(front), last) then Effective(front) else Effective(front) + [last]
  {
    hide Step, IsIgnored;
    assert (front + [last])[..|front|] == front;
  }

  /** The last event time never goes back. */
  lemma {:induction false} TimeNeverDecreases(inputs: seq<Input>, m: nat, n: nat)
    requires m <= n <= |inputs|
    ensures Run(inputs[..m]).lastEventAt <= Run(inputs[..n]).lastEventAt
    decreases n
  {
    if m < n {
      TimeNeverDecreases(inputs, m, n - 1);
      RunOneMore(inputs, n - 1);
    }
  }

  /** A finished or failed session changes state only at a prompt, a session start or a
      session end that is not out of date. */
  lemma TerminalIsLeftByRestart(p: Projection, i: Input)
    requires p.exec in {ResponseFinished, HasFailed}
    ensures Step(p, i).exec != p.exec
            <==> i.Event? && i.at >= p.lastEventAt && i.kind in {PromptSubmitted, SessionStarted, SessionEnded}
  {
  }

  // ----- What a confirmed decision rests on -----

  /** Input `k` had its effect. */
  ghost predicate Took(inputs: seq<Input>, k: int) {
    0 <= k < |inputs| && match inputs[k]
                         case Event(kind, at) => !Ignored(Run(inputs[..k]), kind, at)
                         case Sent(_, _) => Run(inputs[..k]).exec == AwaitingApproval
                         case PassedOn => true
  }

  /** Input `k` starts a new round: a prompt, a permission request, or another decision. */
  ghost predicate NewRound(inputs: seq<Input>, k: int) {
    Took(inputs, k)
    && (inputs[k].Sent? || (inputs[k].Event? && inputs[k].kind in {PromptSubmitted, PermissionRequested}))
  }

  /** The decision sent at `i` still stands after `n` inputs. */
  ghost predicate Stands(inputs: seq<Input>, i: int, n: nat, d: Decision) {
    0 <= i < n <= |inputs| && Took(inputs, i) && inputs[i].Sent? && inputs[i].decision == d
    && forall k :: i < k < n ==> !NewRound(inputs, k)
  }

  ghost predicate ConfirmedAt(inputs: seq<Input>, i: int, j: int, n: nat, d: Decision) {
    Stands(inputs, i, n, d) && i < j < n && Took(inputs, j) && inputs[j].Event?
    && inputs[j].kind == match d case Allow => ToolFinished case Deny => PermissionDenied
  }

  /** What one input does to the decision sent. */
  lemma SentStep(inputs: seq<Input>, m: nat)
    requires m < |inputs|
    ensures var i, before, next := inputs[m], Run(inputs[..m]), Run(inputs[..m + 1]);
            && next.sent == (if !NewRound(inputs, m) then before.sent else if i.Sent? then Some(i.decision) else None)
            && next.sentAt == if !NewRound(inputs, m) then before.sentAt else if i.Sent? then Some(i.at) else None
  {
    RunOneMore(inputs, m);
  }

  lemma {:induction false} SentMeans(inputs: seq<Input>, n: nat, d: Decision)
    requires n <= |inputs|
    ensures Run(inputs[..n]).sent == Some(d) <==> exists i :: Stands(inputs, i, n, d)
    ensures forall i :: Stands(inputs, i, n, d) ==> Run(inputs[..n]).sentAt == Some(inputs[i].at)
  {
    hide Step;
    if n == 0 {
      assert inputs[..n] == [];
    } else {
      var m := n - 1;
      SentMeans(inputs, m, d);
      SentStep(inputs, m);
      StandsStep(inputs, m, n, d);
    }
  }

  lemma StandsStep(inputs: seq<Input>, m: nat, n: nat, d: Decision)
    requires m + 1 == n <= |inputs|
    ensures (exists i :: Stands(inputs, i, n, d))
            <==> if NewRound(inputs, m) then inputs[m].Sent? && inputs[m].decision == d
                 else exists i :: Stands(inputs, i, m, d)
    ensures forall i :: Stands(inputs, i, n, d) ==>
              if NewRound(inputs, m) then i == m && inputs[m].Sent? else Stands(inputs, i, m, d)
  {
    hide Run, Took;
    assert Took(inputs, m) && inputs[m].Sent? ==> NewRound(inputs, m);
    if NewRound(inputs, m) {
      if inputs[m].Sent? && inputs[m].decision == d {
        assert Took(inputs, m);
        assert Stands(inputs, m, n, d);
      }
    } else {
      if i :| Stands(inputs, i, m, d) {
        assert Stands(inputs, i, n, d);
      }
      if i :| Stands(inputs, i, n, d) {
        assert Stands(inputs, i, m, d);
      }
    }
  }

  /** A decision is confirmed exactly when one was sent while approval was awaited, its
      matching event followed, and since then no prompt, no permission request and no other
      decision took effect. */
  lemma {:induction false} ConfirmedMeans(inputs: seq<Input>, n: nat)
    requires n <= |inputs|
    ensures Run(inputs[..n]).confirmed <==> exists i, j, d :: ConfirmedAt(inputs, i, j, n, d)
  {
    if n > 0 {
      ConfirmedMeans(inputs, n - 1);
      if Run(inputs[..n]).confirmed {
        ConfirmedHasReason(inputs, n - 1, n);
      }
      if i, j, d :| ConfirmedAt(inputs, i, j, n, d) {
        ReasonConfirms(inputs, i, j, n - 1, n, d);
      }
    }
  }

  /** Input `m` confirms the decision that stands. */
  ghost predicate ConfirmsNow(inputs: seq<Input>, m: nat)
    requires m < |inputs|
  {
    var sent := Run(inputs[..m]).sent;
    sent.Some? && Took(inputs, m) && inputs[m].Event?
    && inputs[m].kind == match sent.value case Allow => ToolFinished case Deny => PermissionDenied
  }

  lemma ConfirmedStep(inputs: seq<Input>, m: nat)
    requires m < |inputs|
    ensures ConfirmsNow(inputs, m) ==> !NewRound(inputs, m)
    ensures Run(inputs[..m + 1]).confirmed
            <==> ConfirmsNow(inputs, m) || (Run(inputs[..m]).confirmed && !NewRound(inputs, m))
  {
    RunOneMore(inputs, m);
  }

  lemma ConfirmedHasReason(inputs: seq<Input>, m: nat, n: nat)
    requires m + 1 == n <= |inputs| && Run(inputs[..n]).confirmed
    requires Run(inputs[..m]).confirmed ==> exists i, j, d :: ConfirmedAt(inputs, i, j, m, d)
    ensures exists i, j, d :: ConfirmedAt(inputs, i, j, n, d)
  {
    hide Run, Took, NewRound, ConfirmsNow, ConfirmedAt;
    ConfirmedStep(inputs, m);
    if ConfirmsNow(inputs, m) {
      var i, d := ConfirmingReason(inputs, m, n);
    } else {
      var i, j, d :| ConfirmedAt(inputs, i, j, m, d);
      ReasonStays(inputs, i, j, m, n, d);
    }
  }

  lemma ConfirmingReason(inputs: seq<Input>, m: nat, n: nat) returns (i: int, d: Decision)
    requires m + 1 == n <= |inputs| && ConfirmsNow(inputs, m) && !NewRound(inputs, m)
    ensures ConfirmedAt(inputs, i, m, n, d)
  {
    hide Run, Took, NewRound;
    d := Run(inputs[..m]).sent.value;
    SentMeans(inputs, m, d);
    i :| Stands(inputs, i, m, d);
    assert Stands(inputs, i, n, d);
  }

  lemma ReasonStays(inputs: seq<Input>, i: int, j: int, m: nat, n: nat, d: Decision)
    requires m + 1 == n <= |inputs| && ConfirmedAt(inputs, i, j, m, d) && !NewRound(inputs, m)
    ensures ConfirmedAt(inputs, i, j, n, d)
  {
    hide Took, NewRound;
    assert Stands(inputs, i, n, d);
  }

  lemma StandingIsSent(inputs: seq<Input>, i: int, m: nat, d: Decision)
    requires m <= |inputs| && Stands(inputs, i, m, d)
    ensures Run(inputs[..m]).sent == Some(d)
  {
    hide Run, Stands;
    SentMeans(inputs, m, d);
  }

  lemma ReasonConfirms(inputs: seq<Input>, i: int, j: int, m: nat, n: nat, d: Decision)
    requires m + 1 == n <= |inputs| && ConfirmedAt(inputs, i, j, n, d)
    requires ConfirmedAt(inputs, i, j, m, d) ==> Run(inputs[..m]).confirmed
    ensures Run(inputs[..n]).confirmed
  {
    ConfirmedStep(inputs, m);
    hide Run, Took, NewRound;
    assert Stands(inputs, i, m, d) && !NewRound(inputs, m);
    StandingIsSent(inputs, i, m, d);
    if j < m {
      assert ConfirmedAt(inputs, i, j, m, d);
    }
  }

  // ----- When approval is awaited -----

  predicate Requests(e: EventKind) {
    e == PermissionRequested || e == QuestionRequested || e == ElicitationRequested
  }

  /** Events that say nothing about what the session is doing. */
  predicate IsAside(e: EventKind) {
    e == Notification || e == SubagentStarted || e == SubagentStopped || e == TaskCreated || e == TaskCompleted
    || e == PlanUpdated || e == AutoReviewStarted || e == AutoReviewCompleted || e == Unknown
  }

  /** Input `k` was an event that took effect and moved the session on. */
  ghost predicate Moved(inputs: seq<Input>, k: int) {
    Took(inputs, k) && inputs[k].Event? && !IsAside(inputs[k].kind)
  }

  /** Input `k` asked for approval and nothing before `n` moved the session on. */
  ghost predicate AwaitsSince(inputs: seq<Input>, k: int, n: nat) {
    0 <= k < n <= |inputs| && Moved(inputs, k) && Requests(inputs[k].kind)
    && forall j :: k < j < n ==> !Moved(inputs, j)
  }

  lemma AwaitingStep(inputs: seq<Input>, m: nat)
    requires m < |inputs|
    ensures Run(inputs[..m + 1]).exec == AwaitingApproval
            <==> if Moved(inputs, m) then Requests(inputs[m].kind) else Run(inputs[..m]).exec == AwaitingApproval
  {
    RunOneMore(inputs, m);
  }

  lemma AwaitsOneMore(inputs: seq<Input>, k: int, m: nat, n: nat)
    requires m + 1 == n <= |inputs|
    ensures AwaitsSince(inputs, k, n)
            <==> if Moved(inputs, m) then k == m && Requests(inputs[m].kind) else AwaitsSince(inputs, k, m)
  {
    assert Moved(inputs, m) ==> inputs[m].Event?;
    hide Run, Moved, Requests;
  }

  lemma AwaitsStep(inputs: seq<Input>, m: nat, n: nat)
    requires m + 1 == n <= |inputs|
    ensures (exists k :: AwaitsSince(inputs, k, n))
            <==> if Moved(inputs, m) then Requests(inputs[m].kind) else exists k :: AwaitsSince(inputs, k, m)
  {
    assert Moved(inputs, m) ==> inputs[m].Event?;
    hide Run, Moved, Requests, AwaitsSince;
    forall k: int
      ensures AwaitsSince(inputs, k, n)
              <==> if Moved(inputs, m) then k == m && Requests(inputs[m].kind) else AwaitsSince(inputs, k, m)
    {
      AwaitsOneMore(inputs, k, m, n);
    }
    assert Moved(inputs, m) && Requests(inputs[m].kind) ==> AwaitsSince(inputs, m, n);
  }

  /** Approval is awaited exactly when a permission, question or elicitation request took effect
      and no other event but asides has since. */
  lemma {:induction false} AwaitingMeans(inputs: seq<Input>, n: nat)
    requires n <= |inputs|
    ensures Run(inputs[..n]).exec == AwaitingApproval <==> exists k :: AwaitsSince(inputs, k, n)
  {
    if n == 0 {
      assert inputs[..n] == [];
    } else {
      assert Moved(inputs, n - 1) ==> inputs[n - 1].Event?;
      hide Step, Run, Moved, AwaitsSince;
      AwaitingMeans(inputs, n - 1);
      AwaitingStep(inputs, n - 1);
      AwaitsStep(inputs, n - 1, n);
    }
  }

  // ----- When the terminal owns the approval -----

  lemma {:induction false} RunIsConsistent(inputs: seq<Input>)
    ensures Consistent(Run(inputs))
  {
    if inputs != [] {
      var front, last := inputs[..|inputs| - 1], inputs[|inputs| - 1];
      RunIsConsistent(front);
      if last.Event? {
        ApplyKeeps(Run(front), last.kind, last.at);
      }
      hide Apply;
    }
  }

  /** Some decision sent still stands after `n` inputs. */
  ghost predicate AnyStands(inputs: seq<Input>, n: nat) {
    exists i, d :: Stands(inputs, i, n, d)
  }

  lemma AnyStandsMeans(inputs: seq<Input>, n: nat)
    requires n <= |inputs|
    ensures AnyStands(inputs, n) <==> Run(inputs[..n]).sent.Some?
  {
    hide Run, Stands;
    if Run(inputs[..n]).sent.Some? {
      var d := Run(inputs[..n]).sent.value;
      SentMeans(inputs, n, d);
      var i :| Stands(inputs, i, n, d);
    }
    if i, d :| Stands(inputs, i, n, d) {
      SentMeans(inputs, n, d);
    }
  }

  /** Input `k` handed an approval over: it was awaited, and no decision sent stood. */
  ghost predicate HandsOver(inputs: seq<Input>, k: int) {
    0 <= k < |inputs| && inputs[k].PassedOn?
    && (exists i :: AwaitsSince(inputs, i, k)) && !AnyStands(inputs, k)
  }

  /** Events that settle or reopen who owns an approval. */
  predicate SetsOwner(e: EventKind) {
    e in {PromptSubmitted, SessionStarted, SessionEnded, PermissionDenied} || Requests(e)
  }

  /** Input `k` took the ownership back: an event that sets it, or one that confirms the decision. */
  ghost predicate TakesBack(inputs: seq<Input>, k: int) {
    Took(inputs, k) && inputs[k].Event? && (SetsOwner(inputs[k].kind) || ConfirmsNow(inputs, k))
  }

  ghost predicate HandedSince(inputs: seq<Input>, k: int, n: nat) {
    0 <= k < n <= |inputs| && HandsOver(inputs, k) && forall j :: k < j < n ==> !TakesBack(inputs, j)
  }

  lemma HandingStep(inputs: seq<Input>, m: nat)
    requires m < |inputs|
    ensures var p := Run(inputs[..m]);
            inputs[m].PassedOn? ==> (HandsOver(inputs, m) <==> p.exec == AwaitingApproval && p.sentAt.None?)
  {
    hide Run, AwaitsSince, AnyStands;
    AwaitingMeans(inputs, m);
    AnyStandsMeans(inputs, m);
    RunIsConsistent(inputs[..m]);
  }

  lemma OwnerStep(inputs: seq<Input>, m: nat)
    requires m < |inputs|
    ensures Run(inputs[..m + 1]).owner == Some(Terminal)
            <==> HandsOver(inputs, m) || (Run(inputs[..m]).owner == Some(Terminal) && !TakesBack(inputs, m))
  {
    hide Run, AwaitsSince, AnyStands;
    RunOneMore(inputs, m);
    HandingStep(inputs, m);
  }

  lemma HandedStep(inputs: seq<Input>, m: nat, n: nat)
    requires m + 1 == n <= |inputs|
    ensures (exists k :: HandedSince(inputs, k, n))
            <==> HandsOver(inputs, m) || (!TakesBack(inputs, m) && exists k :: HandedSince(inputs, k, m))
  {
    hide HandsOver, TakesBack;
    if HandsOver(inputs, m) {
      assert HandedSince(inputs, m, n);
    }
    if !TakesBack(inputs, m) {
      if k :| HandedSince(inputs, k, m) {
        assert HandedSince(inputs, k, n);
      }
    }
    if k :| HandedSince(inputs, k, n) {
      assert k < m ==> HandedSince(inputs, k, m);
    }
  }

  lemma NoOwnerYet(inputs: seq<Input>)
    ensures Run(inputs[..0]).owner == None
    ensures forall k :: !HandedSince(inputs, k, 0) && !WidgetSince(inputs, k, 0)
  {
    assert inputs[..0] == [];
  }

  /** The terminal owns the approval exactly when it was handed over while it was awaited and no
      decision sent stood, and no event has set the owner or confirmed a decision since. */
  lemma {:induction false} TerminalMeans(inputs: seq<Input>, n: nat)
    requires n <= |inputs|
    ensures Run(inputs[..n]).owner == Some(Terminal) <==> exists k :: HandedSince(inputs, k, n)
  {
    hide Run, HandsOver, TakesBack, HandedSince;
    if n == 0 {
      NoOwnerYet(inputs);
    } else {
      TerminalMeans(inputs, n - 1);
      OwnerStep(inputs, n - 1);
      HandedStep(inputs, n - 1, n);
    }
  }

  // ----- When the widget owns the approval -----

  /** Input `k` asked for approval, and since then it was neither handed over nor taken back. */
  ghost predicate WidgetSince(inputs: seq<Input>, k: int, n: nat) {
    0 <= k < n <= |inputs| && Moved(inputs, k) && Requests(inputs[k].kind)
    && forall j :: k < j < n ==> !HandsOver(inputs, j) && !TakesBack(inputs, j)
  }

  lemma WidgetOwnerStep(inputs: seq<Input>, m: nat)
    requires m < |inputs|
    ensures Run(inputs[..m + 1]).owner == Some(Widget)
            <==> (Moved(inputs, m) && Requests(inputs[m].kind))
                 || (Run(inputs[..m]).owner == Some(Widget) && !HandsOver(inputs, m) && !TakesBack(inputs, m))
  {
    hide Run, AwaitsSince, AnyStands;
    RunOneMore(inputs, m);
    HandingStep(inputs, m);
  }

  lemma WidgetStep(inputs: seq<Input>, m: nat, n: nat)
    requires m + 1 == n <= |inputs|
    ensures (exists k :: WidgetSince(inputs, k, n))
            <==> (Moved(inputs, m) && Requests(inputs[m].kind))
                 || (!HandsOver(inputs, m) && !TakesBack(inputs, m) && exists k :: WidgetSince(inputs, k, m))
  {
    assert Moved(inputs, m) ==> inputs[m].Event?;
    hide HandsOver, TakesBack, Moved, Requests;
    if Moved(inputs, m) && Requests(inputs[m].kind) {
      assert WidgetSince(inputs, m, n);
    }
    if !HandsOver(inputs, m) && !TakesBack(inputs, m) {
      if k :| WidgetSince(inputs, k, m) {
        assert WidgetSince(inputs, k, n);
      }
    }
    if k :| WidgetSince(inputs, k, n) {
      assert k < m ==> WidgetSince(inputs, k, m);
    }
  }

  /** The widget owns the approval exactly when it was asked for, and since then not handed to the
      terminal, not reset by an event, and no decision was confirmed. */
  lemma {:induction false} WidgetMeans(inputs: seq<Input>, n: nat)
    requires n <= |inputs|
    ensures Run(inputs[..n]).owner == Some(Widget) <==> exists k :: WidgetSince(inputs, k, n)
  {
    assert n > 0 && Moved(inputs, n - 1) ==> inputs[n - 1].Event?;
    hide Run, HandsOver, TakesBack, Moved, Requests, WidgetSince;
    if n == 0 {
      NoOwnerYet(inputs);
    } else {
      WidgetMeans(inputs, n - 1);
      WidgetOwnerStep(inputs, n - 1);
      WidgetStep(inputs, n - 1, n);
    }
  }

  // ----- Every state, by the event that led to it -----

  /** Input `k` was the last before `n` to move the session on, by one of `kinds`. */
  ghost predicate LastMove(inputs: seq<Input>, k: int, n: nat, kinds: set<EventKind>) {
    0 <= k < n <= |inputs| && Moved(inputs, k) && inputs[k].kind in kinds
    && forall j :: k < j < n ==> !Moved(inputs, j)
  }

  ghost predicate LedBy(inputs: seq<Input>, n: nat, kinds: set<EventKind>) {
    exists k :: LastMove(inputs, k, n, kinds)
  }

  ghost predicate NeverMoved(inputs: seq<Input>, n: nat) {
    forall j :: 0 <= j < n ==> !Moved(inputs, j)
  }

  /** The events that lead to a state. */
  ghost function EventsOf(s: ExecState): set<EventKind> {
    match s
    case Idle => {SessionStarted, SessionEnded}
    case Thinking => {PromptSubmitted, ToolFinished, ToolFailed, PermissionDenied}
    case ToolRunning => {ToolStarted}
    case AwaitingApproval => {PermissionRequested, QuestionRequested, ElicitationRequested}
    case CompactingContext => {Compacting}
    case ResponseFinished => {Stopped}
    case HasFailed => {Interrupted, Failed}
  }

  lemma LedByStep(inputs: seq<Input>, m: nat, n: nat, kinds: set<EventKind>)
    requires m + 1 == n <= |inputs|
    ensures LedBy(inputs, n, kinds)
            <==> if Moved(inputs, m) then inputs[m].kind in kinds else LedBy(inputs, m, kinds)
  {
    assert Moved(inputs, m) ==> inputs[m].Event?;
    hide Moved;
    if Moved(inputs, m) && inputs[m].kind in kinds {
      assert LastMove(inputs, m, n, kinds);
    }
    if k :| LastMove(inputs, k, n, kinds) {
      assert k < m ==> LastMove(inputs, k, m, kinds);
    }
    if !Moved(inputs, m) {
      if k :| LastMove(inputs, k, m, kinds) {
        assert LastMove(inputs, k, n, kinds);
      }
    }
  }

  lemma ExecStep(inputs: seq<Input>, m: nat, s: ExecState)
    requires m < |inputs|
    ensures Run(inputs[..m + 1]).exec == s
            <==> if Moved(inputs, m) then inputs[m].kind in EventsOf(s) else Run(inputs[..m]).exec == s
  {
    RunOneMore(inputs, m);
    hide Run;
  }

  lemma StartsIdle(inputs: seq<Input>)
    ensures Run(inputs[..0]).exec == Idle && NeverMoved(inputs, 0) && forall kinds :: !LedBy(inputs, 0, kinds)
  {
    assert inputs[..0] == [];
  }

  lemma NeverMovedStep(inputs: seq<Input>, m: nat, n: nat)
    requires m + 1 == n <= |inputs|
    ensures NeverMoved(inputs, n) <==> NeverMoved(inputs, m) && !Moved(inputs, m)
  {
    hide Moved;
  }

  lemma StateMeansStep(inputs: seq<Input>, m: nat, n: nat, s: ExecState)
    requires m + 1 == n <= |inputs|
    requires Run(inputs[..m]).exec == s <==> LedBy(inputs, m, EventsOf(s)) || (s == Idle && NeverMoved(inputs, m))
    ensures Run(inputs[..n]).exec == s <==> LedBy(inputs, n, EventsOf(s)) || (s == Idle && NeverMoved(inputs, n))
  {
    hide *;
    ExecStep(inputs, m, s);
    LedByStep(inputs, m, n, EventsOf(s));
    NeverMovedStep(inputs, m, n);
  }

  /** A session is in a state exactly when the last event that took effect, asides apart, is one of
      that state's own; before any such event it is idle. */
  lemma {:induction false} StateMeans(inputs: seq<Input>, n: nat, s: ExecState)
    requires n <= |inputs|
    ensures Run(inputs[..n]).exec == s <==> LedBy(inputs, n, EventsOf(s)) || (s == Idle && NeverMoved(inputs, n))
  {
    hide *;
    if n == 0 {
      StartsIdle(inputs);
    } else {
      StateMeans(inputs, n - 1, s);
      StateMeansStep(inputs, n - 1, n, s);
    }
  }

  // ----- Which events take effect -----

  ghost predicate TookEvent(inputs: seq<Input>, k: int) {
    Took(inputs, k) && inputs[k].Event?
  }

  lemma LatestStep(inputs: seq<Input>, m: nat)
    requires m < |inputs|
    ensures var before, next, took := Run(inputs[..m]), Run(inputs[..m + 1]), TookEvent(inputs, m);
            && (took ==> before.lastEventAt <= inputs[m].at == next.lastEventAt)
            && (!took ==> next.lastEventAt == before.lastEventAt)
  {
    RunOneMore(inputs, m);
    hide Run;
  }

  /** The last event time is 0 or the time of an event that took effect, and none of those is later. */
  lemma {:induction false} LatestMeans(inputs: seq<Input>, n: nat)
    requires n <= |inputs|
    ensures var latest := Run(inputs[..n]).lastEventAt;
            && (forall j :: 0 <= j < n && TookEvent(inputs, j) ==> inputs[j].at <= latest)
            && (latest == 0 || exists j :: 0 <= j < n && TookEvent(inputs, j) && inputs[j].at == latest)
  {
    if n == 0 {
      assert inputs[..n] == [];
    } else {
      hide Run, TookEvent;
      LatestMeans(inputs, n - 1);
      LatestStep(inputs, n - 1);
    }
  }

  /** An event takes effect exactly when it is no older than those that did and the session is not
      over, or starts it again. */
  lemma TookMeans(inputs: seq<Input>, k: nat)
    requires k < |inputs| && inputs[k].Event?
    ensures Took(inputs, k)
            <==> && (forall j :: 0 <= j < k && TookEvent(inputs, j) ==> inputs[j].at <= inputs[k].at)
                 && (LedBy(inputs, k, {Stopped, Interrupted, Failed}) ==>
                       inputs[k].kind in {PromptSubmitted, SessionStarted, SessionEnded})
  {
    LatestMeans(inputs, k);
    StateMeans(inputs, k, ResponseFinished);
    StateMeans(inputs, k, HasFailed);
    OverMeans(inputs, k);
    hide Run, LedBy;
  }

  lemma OverMeans(inputs: seq<Input>, n: nat)
    ensures LedBy(inputs, n, {Stopped, Interrupted, Failed})
            <==> LedBy(inputs, n, {Stopped}) || LedBy(inputs, n, {Interrupted, Failed})
  {
    hide Moved;
    if k :| LastMove(inputs, k, n, {Stopped, Interrupted, Failed}) {
      assert LastMove(inputs, k, n, {Stopped}) || LastMove(inputs, k, n, {Interrupted, Failed});
    }
    if k :| LastMove(inputs, k, n, {Stopped}) {
      assert LastMove(inputs, k, n, {Stopped, Interrupted, Failed});
    }
    if k :| LastMove(inputs, k, n, {Interrupted, Failed}) {
      assert LastMove(inputs, k, n, {Stopped, Interrupted, Failed});
    }
  }
}
