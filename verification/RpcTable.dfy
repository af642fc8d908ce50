/** The pending table of `CodexConnector` in `crates/codex-connector/src/lib.rs`: callers, the
    reader thread, timeouts and shutdown share `pending`, `next_id` and `closed`. One action is
    one step no other thread can cut into: an atomic operation, a critical section, or a send
    or receive on one channel. A run is any interleaving of them. */
module RpcTable {
  import opened Options
  import opened Decimals

  // ----- Messages -----

  /** A JSON-RPC id. `OtherJson` is any value that is neither an integer of 64 bits nor a
      string, with the text it prints as. */
  datatype RpcId = Unsigned(value: nat) | Negative(magnitude: nat) | Text(text: string) | OtherJson(printed: string)

  function IdKey(id: RpcId): string {
    match id
    case Unsigned(value) => ToDecimal(value)
    case Negative(magnitude) => "-" + ToDecimal(magnitude)
    case Text(text) => text
    case OtherJson(printed) => printed
  }

  datatype Body = Body(error: Option<string>, result: Option<string>)

  datatype Reply = Value(result: string) | Failure(error: string)

  function ReplyOf(body: Body): Reply {
    if body.error.Some? then Failure(body.error.value) else Value(body.result.GetOr("null"))
  }

  /** A line the reader could parse. */
  datatype Message = Message(rpcMethod: Option<string>, id: Option<RpcId>, body: Body)

  predicate IsResponse(m: Message) {
    m.rpcMethod.None? && m.id.Some?
  }

  /** What a caller's channel carries: a response, or the reason the table was drained. */
  datatype Delivery = Response(id: RpcId, reply: Reply) | Drained(reason: string)

  // ----- State -----

  datatype Outcome = Got(delivery: Delivery) | WriteFailed | TimedOut | ChannelClosed

  /** Where a call is in `call`: it has its id, its sender is in the table, its request is
      written, it is about to take its sender out again, or it has returned. */
  datatype Phase = Numbered | Writing | Waiting | Leaving(outcome: Outcome) | Returned(outcome: Outcome)

  datatype Call = Call(id: nat, phase: Phase, inbox: seq<Delivery>)

  /** The sender the reader has taken out of the table and not used yet. */
  datatype Held = Held(call: nat, delivery: Delivery)

  /** `pending` maps a key to the call whose sender is stored there. */
  datatype State = State(nextId: nat, pending: map<string, nat>, calls: seq<Call>, reader: Option<Held>, closed: bool)

  const ID_SPACE: nat := 0x1_0000_0000_0000_0000

  const INITIAL := State(1, map[], [], None, false)

  datatype Action =
    | FetchId
    | Insert(call: nat)
    | WriteDone(call: nat)
    | WriteFails(call: nat)
    | Receive(call: nat)
    | Expire(call: nat)
    | Disconnect(call: nat)
    | Leave(call: nat)
    | Take(message: Message)
    | Deliver
    | Close
    | Drain(reason: string)

  predicate HoldsSender(s: State, c: nat) {
    c in s.pending.Values || (s.reader.Some? && s.reader.value.call == c)
  }

  predicate PhaseIs(s: State, c: nat, phase: Phase) {
    c < |s.calls| && s.calls[c].phase == phase
  }

  predicate Enabled(s: State, a: Action) {
    match a
    case FetchId => true
    case Insert(c) => PhaseIs(s, c, Numbered)
    case WriteDone(c) => PhaseIs(s, c, Writing)
    case WriteFails(c) => PhaseIs(s, c, Writing)
    case Receive(c) => PhaseIs(s, c, Waiting) && s.calls[c].inbox != []
    case Expire(c) => PhaseIs(s, c, Waiting) && s.calls[c].inbox == []
    case Disconnect(c) => PhaseIs(s, c, Waiting) && s.calls[c].inbox == [] && !HoldsSender(s, c)
    case Leave(c) => c < |s.calls| && s.calls[c].phase.Leaving?
    case Take(m) => s.reader.None?
    case Deliver => s.reader.Some? && s.reader.value.call < |s.calls|
    case Close => true
    case Drain(_) => forall c :: c in s.pending.Values ==> c < |s.calls|
  }

  /** Steps that only move a call on. */
  predicate IsAdvance(a: Action) {
    a.WriteDone? || a.WriteFails? || a.Receive? || a.Expire? || a.Disconnect?
  }

  function WithPhase(calls: seq<Call>, c: nat, phase: Phase): seq<Call>
    requires c < |calls|
  {
    calls[c := calls[c].(phase := phase)]
  }

  /** A send: it is lost once the call has returned and dropped its receiver. */
  function Sent(call: Call, d: Delivery): Call {
    if call.phase.Returned? then call else call.(inbox := call.inbox + [d])
  }

  /** Every call in `to` gets `d`. */
  function SentToAll(calls: seq<Call>, to: set<nat>, d: Delivery): seq<Call> {
    seq(|calls|, c requires 0 <= c < |calls| => if c in to then Sent(calls[c], d) else calls[c])
  }

  function Next(s: State, a: Action): State
    requires Enabled(s, a)
  {
    match a
    case FetchId => s.(nextId := (s.nextId + 1) % ID_SPACE, calls := s.calls + [Call(s.nextId, Numbered, [])])
    case Insert(c) => s.(pending := s.pending[ToDecimal(s.calls[c].id) := c], calls := WithPhase(s.calls, c, Writing))
    case WriteDone(c) => s.(calls := WithPhase(s.calls, c, Waiting))
    case WriteFails(c) => s.(calls := WithPhase(s.calls, c, Leaving(WriteFailed)))
    case Receive(c) => s.(calls := WithPhase(s.calls, c, Returned(Got(s.calls[c].inbox[0]))))
    case Expire(c) => s.(calls := WithPhase(s.calls, c, Leaving(TimedOut)))
    case Disconnect(c) => s.(calls := WithPhase(s.calls, c, Returned(ChannelClosed)))
    case Leave(c) =>
      s.(pending := s.pending - {ToDecimal(s.calls[c].id)},
         calls := WithPhase(s.calls, c, Returned(s.calls[c].phase.outcome)))
    case Take(m) =>
      if !IsResponse(m) || IdKey(m.id.value) !in s.pending then s
      else
        var key := IdKey(m.id.value);
        s.(pending := s.pending - {key}, reader := Some(Held(s.pending[key], Response(m.id.value, ReplyOf(m.body)))))
    case Deliver =>
      var held := s.reader.value;
      s.(calls := s.calls[held.call := Sent(s.calls[held.call], held.delivery)], reader := None)
    case Close => s.(closed := true)
    case Drain(reason) => DrainTable(s, Drained(reason))
  }

  function DrainTable(s: State, d: Delivery): State {
    s.(pending := map[], calls := SentToAll(s.calls, s.pending.Values, d))
  }

  // ----- The connector -----

  /** The shared fields, with the channels and the places of the threads that use them. */
  class CodexConnector {
    var nextId: nat
    var pending: map<string, nat>
    var calls: seq<Call>
    var reader: Option<Held>
    var closed: bool

    ghost function View(): State
      reads this
    {
      State(nextId, pending, calls, reader, closed)
    }

    /** What every interleaving keeps. */
    ghost predicate Valid()
      reads this
    {
      Sound(View())
    }

    constructor ()
      ensures Valid() && View() == INITIAL
    {
      nextId, pending, calls, reader, closed := 1, map[], [], None, false;
      new;
      InitKeeps();
    }

    method FetchId() returns (c: nat)
      requires Valid()
      modifies this
      ensures Valid() && View() == Next(old(View()), Action.FetchId) && c == old(|calls|)
    {
      KeepsSound(View(), Action.FetchId);
      hide Sound;
      c := |calls|;
      calls := calls + [Call(nextId, Numbered, [])];
      nextId := (nextId + 1) % ID_SPACE;
    }

    method Insert(c: nat)
      requires Valid() && Enabled(View(), Action.Insert(c))
      modifies this
      ensures Valid() && View() == Next(old(View()), Action.Insert(c))
    {
      KeepsSound(View(), Action.Insert(c));
      hide Sound;
      pending := pending[ToDecimal(calls[c].id) := c];
      calls := WithPhase(calls, c, Writing);
    }

    /** What a caller's write or receive finds. */
    method Advance(c: nat, a: Action)
      requires IsAdvance(a) && a.call == c && Valid() && Enabled(View(), a)
      modifies this
      ensures Valid() && View() == Next(old(View()), a)
    {
      KeepsSound(View(), a);
      hide Sound;
      var phase: Phase;
      match a {
        case WriteDone(_) => phase := Waiting;
        case WriteFails(_) => phase := Leaving(WriteFailed);
        case Receive(_) => phase := Returned(Got(calls[c].inbox[0]));
        case Expire(_) => phase := Leaving(TimedOut);
        case Disconnect(_) => phase := Returned(ChannelClosed);
      }
      calls := WithPhase(calls, c, phase);
    }

    method Leave(c: nat)
      requires Valid() && Enabled(View(), Action.Leave(c))
      modifies this
      ensures Valid() && View() == Next(old(View()), Action.Leave(c))
    {
      KeepsSound(View(), Action.Leave(c));
      hide Sound;
      pending := pending - {ToDecimal(calls[c].id)};
      calls := WithPhase(calls, c, Returned(calls[c].phase.outcome));
    }

    method CompleteResponse(m: Message)
      requires Valid() && Enabled(View(), Take(m))
      modifies this
      ensures Valid() && View() == Next(old(View()), Take(m))
    {
      KeepsSound(View(), Take(m));
      hide Sound;
      if IsResponse(m) {
        var key := IdKey(m.id.value);
        if key in pending {
          reader := Some(Held(pending[key], Response(m.id.value, ReplyOf(m.body))));
          pending := pending - {key};
        }
      }
    }

    method Deliver()
      requires Valid() && Enabled(View(), Action.Deliver)
      modifies this
      ensures Valid() && View() == Next(old(View()), Action.Deliver)
    {
      KeepsSound(View(), Action.Deliver);
      hide Sound;
      var held := reader.value;
      calls := calls[held.call := Sent(calls[held.call], held.delivery)];
      reader := None;
    }

    method Close()
      requires Valid()
      modifies this
      ensures Valid() && View() == Next(old(View()), Action.Close)
    {
      KeepsSound(View(), Action.Close);
      hide Sound;
      closed := true;
    }

    method FailAllPending(reason: string)
      requires Valid()
      modifies this
      ensures Valid() && View() == DrainTable(old(View()), Drained(reason))
    {
      assert Enabled(View(), Drain(reason)) && Next(View(), Drain(reason)) == DrainTable(View(), Drained(reason));
      KeepsSound(View(), Drain(reason));
      calls := SendEach(pending, calls, Drained(reason));
      hide Sound, Next, SentToAll;
      pending := map[];
    }
  }

  /** Drains a table in whatever order it yields its entries. */
  method SendEach(pending: map<string, nat>, calls: seq<Call>, delivery: Delivery) returns (sent: seq<Call>)
    requires Injective(pending) && forall k :: k in pending ==> pending[k] < |calls|
    ensures sent == SentToAll(calls, pending.Values, delivery)
  {
    sent := calls;
    var table := pending;
    ghost var done: set<nat> := {};
    SendToNone(calls, delivery);
    hide SentToAll, Sent;
    while table != map[]
      invariant Injective(table) && |sent| == |calls| && forall c :: c in table.Values ==> c < |calls|
      invariant done !! table.Values
      invariant done + table.Values == pending.Values
      invariant sent == SentToAll(calls, done, delivery)
      decreases |table|
    {
      var key :| key in table;
      var c := table[key];
      RemoveEntry(table, key);
      SendToOneMore(calls, done, c, delivery);
      sent := sent[c := Sent(sent[c], delivery)];
      table := table - {key};
      done := done + {c};
    }
    assert done == pending.Values;
  }

  ghost predicate Injective(m: map<string, nat>) {
    forall k, l :: k in m && l in m && m[k] == m[l] ==> k == l
  }

  lemma RemoveEntry(m: map<string, nat>, k: string)
    requires k in m && Injective(m)
    ensures var rest := m - {k};
            && Injective(rest) && |rest| < |m|
            && m[k] !in rest.Values && m.Values == rest.Values + {m[k]}
  {
    var rest := m - {k};
    assert rest.Keys == m.Keys - {k};
    forall c
      ensures c in m.Values <==> c in rest.Values || c == m[k]
    {
      if c in m.Values {
        var l :| l in m && m[l] == c;
        assert l != k ==> l in rest && rest[l] == c;
      }
      if c in rest.Values {
        var l :| l in rest && rest[l] == c;
        assert l in m && m[l] == c;
      }
    }
  }

  lemma SendToNone(calls: seq<Call>, d: Delivery)
    ensures SentToAll(calls, {}, d) == calls
  {
  }

  lemma SendToOneMore(calls: seq<Call>, to: set<nat>, c: nat, d: Delivery)
    requires c < |calls| && c !in to
    ensures var sent := SentToAll(calls, to, d);
            |sent| == |calls| && SentToAll(calls, to + {c}, d) == sent[c := Sent(sent[c], d)]
  {
    hide Sent;
  }

  // ----- What every interleaving keeps -----

  predicate InProgress(p: Phase) {
    p.Writing? || p.Waiting? || p.Leaving?
  }

  predicate InTable(s: State, c: nat) {
    ToDecimal(c + 1) in s.pending && s.pending[ToDecimal(c + 1)] == c
  }

  predicate WithReader(s: State, c: nat) {
    s.reader.Some? && s.reader.value.call == c
  }

  /** A result call `c` may be given: a response that carries its id, or a drain. */
  predicate OwnDelivery(c: nat, d: Delivery) {
    d.Response? ==> IdKey(d.id) == ToDecimal(c + 1)
  }

  /** Call `c`'s one sender is in the table, with the reader, or used. */
  ghost predicate CallOk(s: State, c: nat)
    requires c < |s.calls|
  {
    var call := s.calls[c];
    && call.id == c + 1
    && (forall d :: d in call.inbox ==> OwnDelivery(c, d))
    && match call.phase
       case Numbered => !InTable(s, c) && !WithReader(s, c) && call.inbox == []
       case Returned(outcome) =>
         !InTable(s, c) && (if WithReader(s, c) then call.inbox == [] else |call.inbox| <= 1)
         && (outcome.Got? ==> call.inbox == [outcome.delivery]) && outcome != ChannelClosed
       case Leaving(outcome) => OneSender(s, c) && (outcome == WriteFailed || outcome == TimedOut)
       case _ => OneSender(s, c)
  }

  predicate OneSender(s: State, c: nat)
    requires c < |s.calls|
  {
    if InTable(s, c) then !WithReader(s, c) && s.calls[c].inbox == []
    else if WithReader(s, c) then s.calls[c].inbox == []
    else |s.calls[c].inbox| == 1
  }

  ghost predicate Inv(s: State) {
    && s.nextId == (|s.calls| + 1) % ID_SPACE
    && (forall k :: k in s.pending ==> s.pending[k] < |s.calls| && k == ToDecimal(s.pending[k] + 1))
    && (s.reader.Some? ==> s.reader.value.call < |s.calls| && OwnDelivery(s.reader.value.call, s.reader.value.delivery))
    && (forall c :: 0 <= c < |s.calls| ==> CallOk(s, c))
  }

  lemma KeysDiffer()
    ensures forall m: nat, n: nat :: ToDecimal(m) == ToDecimal(n) ==> m == n
  {
    forall m: nat, n: nat | ToDecimal(m) == ToDecimal(n)
      ensures m == n
    {
      ToDecimalInjective(m, n);
    }
  }

  lemma FetchKeeps(s: State)
    requires Inv(s) && |s.calls| + 1 < ID_SPACE
    ensures Inv(Next(s, FetchId))
  {
    hide ToDecimal, IdKey;
    KeysDiffer();
    var t := Next(s, FetchId);
    forall c | 0 <= c < |t.calls|
      ensures CallOk(t, c)
    {
      if c < |s.calls| {
        assert CallOk(s, c);
      }
    }
  }

  lemma InsertKeeps(s: State, c: nat)
    requires Inv(s) && Enabled(s, Insert(c))
    ensures Inv(Next(s, Insert(c)))
  {
    hide ToDecimal, IdKey;
    KeysDiffer();
    var t := Next(s, Insert(c));
    assert CallOk(s, c);
    forall e | 0 <= e < |t.calls|
      ensures CallOk(t, e)
    {
      assert CallOk(s, e);
    }
  }

  /** While its one sender is somewhere, a waiting call cannot find its channel closed. */
  lemma DisconnectNever(s: State, c: nat)
    requires Inv(s)
    ensures !Enabled(s, Disconnect(c))
  {
    hide ToDecimal, IdKey;
    if PhaseIs(s, c, Waiting) {
      assert CallOk(s, c);
      assert InTable(s, c) ==> c in s.pending.Values;
    }
  }

  lemma ReceiveKeeps(s: State, c: nat)
    requires Inv(s) && Enabled(s, Receive(c))
    ensures Inv(Next(s, Receive(c)))
  {
    hide ToDecimal, IdKey;
    assert CallOk(s, c);
    var t := Next(s, Receive(c));
    assert s.calls[c].inbox == [s.calls[c].inbox[0]];
    forall e | 0 <= e < |t.calls|
      ensures CallOk(t, e)
    {
      assert CallOk(s, e);
    }
  }

  lemma MoveKeeps(s: State, c: nat, a: Action)
    requires (a.WriteDone? || a.WriteFails? || a.Expire?) && a.call == c
    requires Inv(s) && Enabled(s, a)
    ensures Inv(Next(s, a))
  {
    hide ToDecimal, IdKey;
    assert CallOk(s, c);
    var t := Next(s, a);
    forall e | 0 <= e < |t.calls|
      ensures CallOk(t, e)
    {
      assert CallOk(s, e);
    }
  }

  lemma LeaveKeeps(s: State, c: nat)
    requires Inv(s) && Enabled(s, Leave(c))
    ensures Inv(Next(s, Leave(c)))
  {
    hide ToDecimal, IdKey;
    KeysDiffer();
    var t := Next(s, Leave(c));
    assert CallOk(s, c);
    forall e | 0 <= e < |t.calls|
      ensures CallOk(t, e)
    {
      assert CallOk(s, e);
    }
  }

  lemma TakeKeeps(s: State, m: Message)
    requires Inv(s) && Enabled(s, Take(m))
    ensures Inv(Next(s, Take(m)))
  {
    hide ToDecimal, IdKey;
    KeysDiffer();
    var t := Next(s, Take(m));
    forall e | 0 <= e < |t.calls|
      ensures CallOk(t, e)
    {
      assert CallOk(s, e);
    }
  }

  lemma DeliverKeeps(s: State)
    requires Inv(s) && Enabled(s, Deliver)
    ensures Inv(Next(s, Deliver))
  {
    hide ToDecimal, IdKey;
    var t := Next(s, Deliver);
    forall e | 0 <= e < |t.calls|
      ensures CallOk(t, e)
    {
      assert CallOk(s, e);
    }
  }

  lemma DrainKeeps(s: State, reason: string)
    requires Inv(s) && Enabled(s, Drain(reason))
    ensures Inv(Next(s, Drain(reason)))
  {
    hide ToDecimal, IdKey;
    var t := Next(s, Drain(reason));
    forall e | 0 <= e < |t.calls|
      ensures CallOk(t, e)
    {
      assert CallOk(s, e);
      assert e in s.pending.Values <==> InTable(s, e);
    }
  }

  lemma StepKeeps(s: State, a: Action)
    requires Inv(s) && Enabled(s, a) && |Next(s, a).calls| < ID_SPACE
    ensures Inv(Next(s, a))
  {
    match a
    case FetchId => FetchKeeps(s);
    case Insert(c) => InsertKeeps(s, c);
    case Leave(c) => LeaveKeeps(s, c);
    case Take(m) => TakeKeeps(s, m);
    case Deliver => DeliverKeeps(s);
    case Drain(reason) => DrainKeeps(s, reason);
    case Close => CloseKeeps(s);
    case Receive(c) => ReceiveKeeps(s, c);
    case Disconnect(c) => DisconnectNever(s, c);
    case _ => MoveKeeps(s, a.call, a);
  }

  /** A sender is stored at most once and belongs to a call that stored it; and until ids repeat,
      the invariant holds. */
  ghost predicate Sound(s: State) {
    && (forall k :: k in s.pending ==> s.pending[k] < |s.calls| && s.calls[s.pending[k]].phase != Numbered)
    && Injective(s.pending)
    && (|s.calls| < ID_SPACE ==> Inv(s))
  }

  lemma KeepsSound(s: State, a: Action)
    requires Sound(s) && Enabled(s, a)
    ensures Sound(Next(s, a))
  {
    CallsGrow(s, a);
    KeepsStored(s, a);
    hide Inv, Next;
    if |Next(s, a).calls| < ID_SPACE {
      StepKeeps(s, a);
    }
  }

  lemma KeepsStored(s: State, a: Action)
    requires Sound(s) && Enabled(s, a)
    ensures var t := Next(s, a);
            && (forall k :: k in t.pending ==> t.pending[k] < |t.calls| && t.calls[t.pending[k]].phase != Numbered)
            && Injective(t.pending)
  {
    hide Inv, ToDecimal, IdKey;
    var t := Next(s, a);
    forall k | k in s.pending
      ensures s.pending[k] < |t.calls| && t.calls[s.pending[k]].phase != Numbered
    {
      CallsStay(s, a, s.pending[k]);
    }
  }

  lemma CloseKeeps(s: State)
    requires Inv(s)
    ensures Inv(Next(s, Close))
  {
    hide ToDecimal, IdKey;
    forall c | 0 <= c < |s.calls|
      ensures CallOk(Next(s, Close), c)
    {
      assert CallOk(s, c);
    }
  }

  // ----- Runs -----

  /** An action that is not enabled does not happen, so every sequence of actions is a run. */
  function Do(s: State, a: Action): State {
    if Enabled(s, a) then Next(s, a) else s
  }

  function After(actions: seq<Action>): State {
    if actions == [] then INITIAL else Do(After(actions[..|actions| - 1]), actions[|actions| - 1])
  }

  /** Fewer calls than ids were made. */
  predicate IdsLast(actions: seq<Action>) {
    |After(actions).calls| < ID_SPACE
  }

  lemma AfterOneMore(actions: seq<Action>, n: nat)
    requires n < |actions|
    ensures After(actions[..n + 1]) == Do(After(actions[..n]), actions[n])
  {
    assert actions[..n + 1][..n] == actions[..n];
  }

  /** A step changes no call's id, no call that has returned, and makes no call disappear. */
  lemma CallsStay(s: State, a: Action, c: nat)
    requires c < |s.calls|
    ensures c < |Do(s, a).calls| && Do(s, a).calls[c].id == s.calls[c].id
    ensures s.calls[c].phase.Returned? ==> Do(s, a).calls[c] == s.calls[c]
    ensures s.calls[c].phase != Numbered ==> Do(s, a).calls[c].phase != Numbered
  {
    hide ToDecimal, IdKey;
  }

  lemma CallsGrow(s: State, a: Action)
    ensures |s.calls| <= |Do(s, a).calls|
  {
    hide ToDecimal, IdKey;
  }

  lemma {:induction false} EveryRunKeeps(actions: seq<Action>)
    requires IdsLast(actions)
    ensures Inv(After(actions))
  {
    hide Inv, Next, Enabled;
    if actions == [] {
      assert Inv(INITIAL) by { InitKeeps(); }
    } else {
      var front, last := actions[..|actions| - 1], actions[|actions| - 1];
      CallsGrow(After(front), last);
      EveryRunKeeps(front);
      if Enabled(After(front), last) {
        StepKeeps(After(front), last);
      }
    }
  }

  lemma InitKeeps()
    ensures Inv(INITIAL)
  {
  }

  lemma PrefixIdsLast(actions: seq<Action>, m: nat, n: nat)
    requires m <= n <= |actions| && IdsLast(actions[..n])
    ensures IdsLast(actions[..m])
    decreases n
  {
    hide Do;
    if m < n {
      AfterOneMore(actions, n - 1);
      CallsGrow(After(actions[..n - 1]), actions[n - 1]);
      PrefixIdsLast(actions, m, n - 1);
    }
  }

  /** Every entry of the table belongs to a call still in progress, under that call's id. */
  lemma EntriesAreInProgress(actions: seq<Action>, key: string)
    requires IdsLast(actions) && key in After(actions).pending
    ensures var s := After(actions);
            var c := s.pending[key];
            c < |s.calls| && InProgress(s.calls[c].phase) && key == ToDecimal(s.calls[c].id)
  {
    EveryRunKeeps(actions);
    hide After;
    var s := After(actions);
    var c := s.pending[key];
    assert c < |s.calls| && key == ToDecimal(c + 1);
    hide ToDecimal, IdKey;
    assert CallOk(s, c) && InTable(s, c);
  }

  /** A call gets at most one result, it returns that one, and it never finds its channel
      closed without one. The result is a response that carries the call's own id, or a drain. */
  lemma OneResult(actions: seq<Action>, c: nat)
    requires IdsLast(actions) && c < |After(actions).calls|
    ensures var call := After(actions).calls[c];
            && |call.inbox| <= 1
            && (call.phase.Returned? && call.phase.outcome.Got? ==>
                  call.inbox == [call.phase.outcome.delivery]
                  && (call.inbox[0].Response? ==> IdKey(call.inbox[0].id) == ToDecimal(call.id)))
            && (call.phase.Returned? ==> call.phase.outcome != ChannelClosed)
  {
    EveryRunKeeps(actions);
    hide After, ToDecimal, IdKey;
    var call := After(actions).calls[c];
    assert CallOk(After(actions), c);
    assert call.inbox != [] ==> call.inbox[0] in call.inbox;
  }

  /** What a call returned never changes. */
  lemma {:induction false} ReturnedStays(actions: seq<Action>, m: nat, n: nat, c: nat)
    requires m <= n <= |actions| && c < |After(actions[..m]).calls| && After(actions[..m]).calls[c].phase.Returned?
    ensures c < |After(actions[..n]).calls| && After(actions[..n]).calls[c] == After(actions[..m]).calls[c]
    decreases n
  {
    hide Do;
    if m < n {
      ReturnedStays(actions, m, n - 1, c);
      AfterOneMore(actions, n - 1);
      CallsStay(After(actions[..n - 1]), actions[n - 1], c);
    }
  }

  /** `reply` is what a response of this body says: its error if it has one, with or without a result,
      or its result, or null where it has neither. */
  ghost predicate Says(body: Body, reply: Reply) {
    && (forall e :: reply == Failure(e) <==> body.error == Some(e))
    && (forall v :: reply == Value(v)
                    <==> body.error == None && (body.result == Some(v) || (body.result == None && v == "null")))
  }

  lemma ReplySays(body: Body, reply: Reply)
    ensures Says(body, reply) <==> reply == ReplyOf(body)
  {
    if Says(body, reply) && body.error.Some? {
      assert reply == Failure(body.error.value);
    }
  }

  /** The reader picks call `c` for a message exactly when the message is a response whose id
      prints as `c`'s and `c`'s sender is in the table. */
  lemma ReaderPicksOwner(actions: seq<Action>, m: Message, c: nat)
    requires IdsLast(actions) && After(actions).reader.None?
    ensures var next := Do(After(actions), Take(m));
            next.reader.Some? && next.reader.value.call == c
            <==> m.rpcMethod == None && m.id.Some? && IdKey(m.id.value) == ToDecimal(c + 1)
                 && InTable(After(actions), c)
    ensures var next := Do(After(actions), Take(m));
            next.reader.Some? ==>
              var d := next.reader.value.delivery;
              d.Response? && Some(d.id) == m.id && Says(m.body, d.reply)
  {
    ReplySays(m.body, ReplyOf(m.body));
    hide Says;
    EveryRunKeeps(actions);
    KeysDiffer();
    hide After, ToDecimal, IdKey, CallOk;
  }

  /** No two calls can take the same response; a numeric id names one call. */
  lemma ResponseNamesOneCall(id: RpcId, reply: Reply, c: nat, e: nat)
    requires OwnDelivery(c, Response(id, reply))
    ensures OwnDelivery(e, Response(id, reply)) <==> e == c
    ensures match id
            case Unsigned(value) => value == c + 1
            case Negative(_) => false
            case Text(text) => text == ToDecimal(c + 1)
            case OtherJson(printed) => printed == ToDecimal(c + 1)
  {
    KeysDiffer();
    assert forall n: nat :: IdKey(Negative(n))[0] == '-';
    assert IsDigit(ToDecimal(c + 1)[0]);
  }

  /** Action `k` gives call `c` the result `d`, taking its sender out of the table. */
  ghost predicate Gives(actions: seq<Action>, k: int, c: nat, d: Delivery) {
    && 0 <= k < |actions|
    && InTable(After(actions[..k]), c)
    && match actions[k]
       case Take(m) => After(actions[..k]).reader.None? && m.rpcMethod == None && m.id.Some?
                       && IdKey(m.id.value) == ToDecimal(c + 1)
                       && d.Response? && d.id == m.id.value && Says(m.body, d.reply)
       case Drain(reason) => d == Drained(reason)
       case _ => false
  }

  /** `d` is with the reader for `c`, or in `c`'s channel. */
  predicate Underway(s: State, c: nat, d: Delivery) {
    s.reader == Some(Held(c, d)) || (c < |s.calls| && d in s.calls[c].inbox)
  }

  lemma UnderwayStep(s: State, a: Action, c: nat, d: Delivery)
    requires Inv(s) && Enabled(s, a) && Underway(Next(s, a), c, d)
    ensures Underway(s, c, d)
            || (InTable(s, c) && a.Drain? && d == Drained(a.reason))
            || (InTable(s, c) && a.Take? && IsResponse(a.message) && IdKey(a.message.id.value) == ToDecimal(c + 1)
                && d == Response(a.message.id.value, ReplyOf(a.message.body)))
  {
    hide ToDecimal, IdKey, CallOk;
  }

  /** Every result a call holds was given to it by one message or drain that came after its
      request was entered in the table. */
  lemma {:induction false} ResultsAreGiven(actions: seq<Action>, n: nat, c: nat, d: Delivery)
    requires n <= |actions| && IdsLast(actions[..n]) && Underway(After(actions[..n]), c, d)
    ensures exists k :: Gives(actions, k, c, d) && k < n
  {
    if n > 0 {
      var m := n - 1;
      var before, a := After(actions[..m]), actions[m];
      AfterOneMore(actions, m);
      PrefixIdsLast(actions, m, n);
      EveryRunKeeps(actions[..m]);
      hide After, Inv, Next, ToDecimal, IdKey;
      if !Enabled(before, a) {
        ResultsAreGiven(actions, m, c, d);
      } else {
        UnderwayStep(before, a, c, d);
        if a.Take? && d.Response? {
          ReplySays(a.message.body, d.reply);
        }
        if Underway(before, c, d) {
          ResultsAreGiven(actions, m, c, d);
        } else {
          assert Gives(actions, m, c, d);
        }
      }
    }
  }

  /** Call `c`'s sender was in the table, and has been taken out of it. */
  predicate SenderGone(s: State, c: nat) {
    c < |s.calls| && s.calls[c].phase != Numbered && !InTable(s, c)
  }

  lemma GoneStays(s: State, a: Action, c: nat)
    requires Inv(s) && SenderGone(s, c)
    ensures SenderGone(Do(s, a), c)
  {
    hide ToDecimal, IdKey;
    KeysDiffer();
    CallsStay(s, a, c);
    assert CallOk(s, c);
  }

  lemma GivingTakesOut(s: State, a: Action, c: nat)
    requires Inv(s) && InTable(s, c)
    requires a.Drain? || (a.Take? && s.reader.None? && IsResponse(a.message)
                          && IdKey(a.message.id.value) == ToDecimal(c + 1))
    ensures SenderGone(Do(s, a), c)
  {
    hide ToDecimal, IdKey;
    assert CallOk(s, c);
  }

  lemma {:induction false} GoneForGood(actions: seq<Action>, m: nat, n: nat, c: nat)
    requires m <= n <= |actions| && IdsLast(actions[..n]) && SenderGone(After(actions[..m]), c)
    ensures SenderGone(After(actions[..n]), c)
    decreases n
  {
    hide After, Do, Inv, SenderGone, IdsLast;
    if m < n {
      PrefixIdsLast(actions, n - 1, n);
      GoneForGood(actions, m, n - 1, c);
      EveryRunKeeps(actions[..n - 1]);
      AfterOneMore(actions, n - 1);
      GoneStays(After(actions[..n - 1]), actions[n - 1], c);
    }
  }

  /** A call is given a result at most once in a run. */
  lemma GivenOnce(actions: seq<Action>, j: nat, k: nat, c: nat, d: Delivery, e: Delivery)
    requires IdsLast(actions) && Gives(actions, j, c, d) && Gives(actions, k, c, e)
    ensures j == k && d == e
  {
    assert actions[..|actions|] == actions;
    if j < k {
      NotGivenAfter(actions, j, k, c, d);
    } else if k < j {
      NotGivenAfter(actions, k, j, c, e);
    } else if actions[j].Take? {
      ReplySays(actions[j].message.body, d.reply);
      ReplySays(actions[j].message.body, e.reply);
    }
  }

  lemma NotGivenAfter(actions: seq<Action>, j: nat, k: nat, c: nat, d: Delivery)
    requires j < k <= |actions| && IdsLast(actions[..|actions|]) && Gives(actions, j, c, d)
    ensures !InTable(After(actions[..k]), c)
  {
    hide After, Do, Inv, InTable, IdsLast;
    PrefixIdsLast(actions, k, |actions|);
    PrefixIdsLast(actions, j, |actions|);
    EveryRunKeeps(actions[..j]);
    AfterOneMore(actions, j);
    GivingTakesOut(After(actions[..j]), actions[j], c);
    GoneForGood(actions, j + 1, k, c);
  }

  /** A call that returned a result was given it by one action: an error exactly where that action
      was a response carrying the error, whether or not with a result; a value exactly where it was a
      response without an error and with that result, or with neither and the value is null. */
  lemma ResultMeans(actions: seq<Action>, c: nat) returns (k: nat)
    requires IdsLast(actions) && c < |After(actions).calls|
    requires After(actions).calls[c].phase.Returned? && After(actions).calls[c].phase.outcome.Got?
    ensures var d := After(actions).calls[c].phase.outcome.delivery;
            && k < |actions| && Gives(actions, k, c, d)
            && (forall e :: d.Response? && d.reply == Failure(e)
                            <==> actions[k].Take? && actions[k].message.body.error == Some(e))
            && (forall v :: d.Response? && d.reply == Value(v)
                            <==> && actions[k].Take? && actions[k].message.body.error == None
                                 && (|| actions[k].message.body.result == Some(v)
                                     || (actions[k].message.body.result == None && v == "null")))
  {
    var d := After(actions).calls[c].phase.outcome.delivery;
    OneResult(actions, c);
    assert actions[..|actions|] == actions;
    hide After, IdKey, ToDecimal, Do;
    assert d in After(actions).calls[c].inbox;
    ResultsAreGiven(actions, |actions|, c, d);
    k :| Gives(actions, k, c, d) && k < |actions|;
  }

  // ----- How a call gets on -----

  ghost predicate Did(actions: seq<Action>, n: nat, a: Action)
    requires n <= |actions|
  {
    exists k :: 0 <= k < n && actions[k] == a && Enabled(After(actions[..k]), a)
  }

  lemma DidStep(actions: seq<Action>, m: nat, n: nat, a: Action)
    requires m + 1 == n <= |actions|
    ensures Did(actions, n, a) <==> Did(actions, m, a) || (actions[m] == a && Enabled(After(actions[..m]), a))
  {
    hide Enabled, After;
  }

  /** The steps taken for a call so far. */
  datatype Steps = Steps(inserted: bool, written: bool, unwritten: bool, received: bool, expired: bool,
                         disconnected: bool, left: bool)

  /** The phase of a call, by the steps taken for it. */
  predicate PhaseFits(p: Phase, steps: Steps) {
    && (p == Numbered <==> !steps.inserted)
    && (p == Writing <==> steps.inserted && !steps.written && !steps.unwritten)
    && (p == Waiting <==> steps.written && !steps.received && !steps.expired && !steps.disconnected)
    && (p == Leaving(WriteFailed) <==> steps.unwritten && !steps.left)
    && (p == Leaving(TimedOut) <==> steps.expired && !steps.left)
    && (p == Returned(WriteFailed) <==> steps.unwritten && steps.left)
    && (p == Returned(TimedOut) <==> steps.expired && steps.left)
    && (p == Returned(ChannelClosed) <==> steps.disconnected)
    && ((p.Returned? && p.outcome.Got?) <==> steps.received)
    && (steps.left ==> p.Returned?)
  }

  ghost function StepsFor(actions: seq<Action>, n: nat, c: nat): Steps
    requires n <= |actions|
  {
    Steps(Did(actions, n, Insert(c)), Did(actions, n, WriteDone(c)), Did(actions, n, WriteFails(c)),
          Did(actions, n, Receive(c)), Did(actions, n, Expire(c)), Did(actions, n, Disconnect(c)),
          Did(actions, n, Leave(c)))
  }

  function OneStep(steps: Steps, a: Action, c: nat): Steps {
    Steps(steps.inserted || a == Insert(c), steps.written || a == WriteDone(c), steps.unwritten || a == WriteFails(c),
          steps.received || a == Receive(c), steps.expired || a == Expire(c),
          steps.disconnected || a == Disconnect(c), steps.left || a == Leave(c))
  }

  function PhaseOf(s: State, c: nat): Phase {
    if c < |s.calls| then s.calls[c].phase else Numbered
  }

  /** How far a call is, by the steps taken for it: before its sender is in the table it has only its
      number; it writes, and waits once it has written; it fails, times out, finds a result or finds
      its channel closed by that very step, and returns from a failure once it has left the table. */
  lemma {:induction false} PhaseMeans(actions: seq<Action>, n: nat, c: nat)
    requires n <= |actions|
    ensures PhaseFits(PhaseOf(After(actions[..n]), c), StepsFor(actions, n, c))
  {
    hide After, Enabled, Did, Do, PhaseOf, PhaseFits;
    if n == 0 {
      NoSteps(actions, c);
    } else {
      PhaseMeans(actions, n - 1, c);
      AfterOneMore(actions, n - 1);
      StepsGrow(actions, n - 1, n, c);
      PhaseStep(After(actions[..n - 1]), actions[n - 1], c, StepsFor(actions, n - 1, c));
    }
  }

  lemma NoSteps(actions: seq<Action>, c: nat)
    ensures PhaseFits(PhaseOf(After(actions[..0]), c), StepsFor(actions, 0, c))
  {
    assert actions[..0] == [];
  }

  lemma StepsGrow(actions: seq<Action>, m: nat, n: nat, c: nat)
    requires m + 1 == n <= |actions|
    ensures var steps := StepsFor(actions, m, c);
            StepsFor(actions, n, c)
            == if Enabled(After(actions[..m]), actions[m]) then OneStep(steps, actions[m], c) else steps
  {
    hide After, Enabled, Did;
    DidStep(actions, m, n, Insert(c));
    DidStep(actions, m, n, WriteDone(c));
    DidStep(actions, m, n, WriteFails(c));
    DidStep(actions, m, n, Receive(c));
    DidStep(actions, m, n, Expire(c));
    DidStep(actions, m, n, Disconnect(c));
    DidStep(actions, m, n, Leave(c));
  }

  /** What a step does to one call's phase. */
  lemma PhaseStep(s: State, a: Action, c: nat, steps: Steps)
    requires PhaseFits(PhaseOf(s, c), steps)
    ensures PhaseFits(PhaseOf(Do(s, a), c), if Enabled(s, a) then OneStep(steps, a, c) else steps)
  {
    hide ToDecimal, IdKey, ReplyOf;
  }

  lemma CloseStep(s: State, a: Action)
    ensures Do(s, a).closed <==> s.closed || a == Close
  {
    hide ToDecimal, IdKey, ReplyOf, SentToAll, Sent;
  }

  /** The connection is closed once that step was taken. */
  lemma {:induction false} ClosedMeans(actions: seq<Action>)
    ensures After(actions).closed <==> Close in actions
  {
    hide Do;
    if actions != [] {
      var front, last := actions[..|actions| - 1], actions[|actions| - 1];
      assert actions == front + [last];
      ClosedMeans(front);
      CloseStep(After(front), last);
    }
  }
}
