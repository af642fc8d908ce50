/** `Client` of `crates/app/src/agent.rs`: the frame loop and its reply threads share `pending`,
    `answered` and the writer. One action is one critical section or one frame written; a run
    is any interleaving of the loop's actions with the threads'. */
module AcpClient {
  import opened Options
  import opened JsonValues
  import AcpReplies
  import AcpFrames

  const MAX_PENDING := 16

  /** Where an accepted interaction is: its id entered in `answered`, refused or let in by the
      count, waiting in `pending`, out of it again with a response, replied to. */
  datatype Stage = Entered | Refused | LetIn | Waiting | Answered(response: Option<AcpReplies.Response>) | Replied

  /** An interaction the loop accepted, with the frame it came in and the turn it came in at. */
  datatype Entry = Entry(frame: AcpReplies.Frame, interaction: AcpReplies.Interaction, turn: nat, stage: Stage)

  /** Frames written to the agent in answer to its requests. */
  datatype Written =
    | Result(entry: nat, id: Json, reply: AcpReplies.Reply)
    | TooMany(entry: nat, id: Json)
    | Unsupported(id: Json)
    | NotReady(id: Json)

  /** What the loop is doing: nothing shared, handling an entry, or starting a turn. */
  datatype Loop = Idle | Handling(entry: nat) | Prompting | Clearing

  datatype Observer = Observer(provider: AcpReplies.Provider, session: string)

  /** `answered` holds ids, which their printed form tells apart; `pending` holds the entries
      whose request id it has. */
  datatype State = State(observer: Option<Observer>, turn: nat, pending: set<nat>, answered: set<Json>,
                         entries: seq<Entry>, loop: Loop, written: seq<Written>)

  const INITIAL := State(None, 0, {}, {}, [], Idle, [])

  /** `Arrive` is a frame that asks for something: one with an id and a method. */
  datatype Action =
    | Open(observer: Observer)
    | Arrive(frame: AcpReplies.Frame, at: nat)
    | Count
    | Refuse
    | LetWait
    | Finish(entry: nat, response: Option<AcpReplies.Response>)
    | Reply(entry: nat)
    | Prompt
    | BeginTurn
    | Clear

  predicate StageIs(s: State, i: nat, stage: Stage) {
    i < |s.entries| && s.entries[i].stage == stage
  }

  predicate Enabled(s: State, a: Action) {
    match a
    case Open(_) => s.loop.Idle?
    case Arrive(frame, _) => s.loop.Idle? && frame.id.Some?
    case Count => s.loop.Handling? && StageIs(s, s.loop.entry, Entered)
    case Refuse => s.loop.Handling? && StageIs(s, s.loop.entry, Refused)
    case LetWait => s.loop.Handling? && StageIs(s, s.loop.entry, LetIn)
    case Finish(i, _) => StageIs(s, i, Waiting)
    case Reply(i) => i < |s.entries| && s.entries[i].stage.Answered?
    case Prompt => s.loop.Idle? && s.observer.Some?
    case BeginTurn => s.loop.Prompting?
    case Clear => s.loop.Clearing?
  }

  function WithStage(entries: seq<Entry>, i: nat, stage: Stage): seq<Entry>
    requires i < |entries|
  {
    entries[i := entries[i].(stage := stage)]
  }

  function IdOf(entries: seq<Entry>, i: nat): Json
    requires i < |entries|
  {
    entries[i].interaction.rpcId
  }

  function ResultOf(entries: seq<Entry>, i: nat): Written
    requires i < |entries| && entries[i].stage.Answered?
  {
    Result(i, IdOf(entries, i), AcpReplies.Respond(entries[i].interaction.route, entries[i].stage.response))
  }

  /** The start of `frame`, up to the entry in `answered`. */
  function Arrived(s: State, frame: AcpReplies.Frame, at: nat): State
    requires frame.id.Some?
  {
    if s.observer.None? then s.(written := s.written + [NotReady(frame.id.value)])
    else
      var interaction := AcpReplies.Interact(s.observer.value.provider, s.observer.value.session, frame, at);
      if interaction.None? then s.(written := s.written + [Unsupported(frame.id.value)])
      else if interaction.value.rpcId in s.answered then s
      else s.(answered := s.answered + {interaction.value.rpcId},
              entries := s.entries + [Entry(frame, interaction.value, s.turn, Entered)],
              loop := Handling(|s.entries|))
  }

  function Next(s: State, a: Action): State
    requires Enabled(s, a)
  {
    match a
    case Open(observer) => s.(observer := Some(observer))
    case Arrive(frame, at) => Arrived(s, frame, at)
    case Count =>
      s.(entries := WithStage(s.entries, s.loop.entry, if |s.pending| >= MAX_PENDING then Refused else LetIn))
    case Refuse =>
      var i := s.loop.entry;
      s.(written := s.written + [TooMany(i, IdOf(s.entries, i))],
         entries := WithStage(s.entries, i, Replied), loop := Idle)
    case LetWait =>
      var i := s.loop.entry;
      s.(pending := s.pending + {i}, entries := WithStage(s.entries, i, Waiting), loop := Idle)
    case Finish(i, response) =>
      s.(pending := s.pending - {i}, entries := WithStage(s.entries, i, Answered(response)))
    case Reply(i) => s.(written := s.written + [ResultOf(s.entries, i)], entries := WithStage(s.entries, i, Replied))
    case Prompt => if s.pending == {} then s.(loop := Prompting) else s
    case BeginTurn => s.(turn := s.turn + 1, loop := Clearing)
    case Clear => s.(answered := {}, loop := Idle)
  }

  // ----- The client -----

  class Client {
    var observer: Option<Observer>
    var turn: nat
    var pending: set<nat>
    var answered: set<Json>
    var entries: seq<Entry>
    var loop: Loop
    var written: seq<Written>

    ghost function View(): State
      reads this
    {
      State(observer, turn, pending, answered, entries, loop, written)
    }

    /** What every interleaving keeps. */
    ghost predicate Valid()
      reads this
    {
      Inv(View())
    }

    constructor ()
      ensures Valid() && View() == INITIAL
    {
      observer, turn, pending, answered, entries, loop, written := None, 0, {}, {}, [], Idle, [];
      new;
      InitKeeps();
    }

    method Open(observer: Observer)
      requires Valid() && Enabled(View(), Action.Open(observer))
      modifies this
      ensures Valid() && View() == Next(old(View()), Action.Open(observer))
    {
      StepKeeps(View(), Action.Open(observer));
      hide Inv;
      this.observer := Some(observer);
    }

    method Frame(frame: AcpReplies.Frame, at: nat)
      requires Valid() && Enabled(View(), Arrive(frame, at))
      modifies this
      ensures Valid() && View() == Next(old(View()), Arrive(frame, at))
    {
      StepKeeps(View(), Arrive(frame, at));
      hide Inv;
      if observer.None? {
        written := written + [NotReady(frame.id.value)];
        return;
      }
      var interaction := AcpReplies.Interact(observer.value.provider, observer.value.session, frame, at);
      if interaction.None? {
        written := written + [Unsupported(frame.id.value)];
        return;
      }
      var id := interaction.value.rpcId;
      if id in answered {
        return;
      }
      answered := answered + {id};
      loop := Handling(|entries|);
      entries := entries + [Entry(frame, interaction.value, turn, Entered)];
    }

    method CountPending()
      requires Valid() && Enabled(View(), Count)
      modifies this
      ensures Valid() && View() == Next(old(View()), Count)
    {
      StepKeeps(View(), Count);
      hide Inv;
      entries := WithStage(entries, loop.entry, if |pending| >= MAX_PENDING then Refused else LetIn);
    }

    method RefuseBusy()
      requires Valid() && Enabled(View(), Refuse)
      modifies this
      ensures Valid() && View() == Next(old(View()), Refuse)
    {
      StepKeeps(View(), Refuse);
      hide Inv;
      written := written + [TooMany(loop.entry, IdOf(entries, loop.entry))];
      entries := WithStage(entries, loop.entry, Replied);
      loop := Idle;
    }

    method StartThread()
      requires Valid() && Enabled(View(), LetWait)
      modifies this
      ensures Valid() && View() == Next(old(View()), LetWait)
    {
      StepKeeps(View(), LetWait);
      hide Inv;
      pending := pending + {loop.entry};
      entries := WithStage(entries, loop.entry, Waiting);
      loop := Idle;
    }

    method ThreadRemoves(i: nat, response: Option<AcpReplies.Response>)
      requires Valid() && Enabled(View(), Finish(i, response))
      modifies this
      ensures Valid() && View() == Next(old(View()), Finish(i, response))
    {
      StepKeeps(View(), Finish(i, response));
      hide Inv;
      pending := pending - {i};
      entries := WithStage(entries, i, Answered(response));
    }

    method ThreadReplies(i: nat)
      requires Valid() && Enabled(View(), Reply(i))
      modifies this
      ensures Valid() && View() == Next(old(View()), Reply(i))
    {
      StepKeeps(View(), Reply(i));
      hide Inv;
      written := written + [ResultOf(entries, i)];
      entries := WithStage(entries, i, Replied);
    }

    method PromptChecksPending()
      requires Valid() && Enabled(View(), Prompt)
      modifies this
      ensures Valid() && View() == Next(old(View()), Prompt)
    {
      StepKeeps(View(), Prompt);
      hide Inv;
      if pending == {} {
        loop := Prompting;
      }
    }

    method PromptBeginsTurn()
      requires Valid() && Enabled(View(), BeginTurn)
      modifies this
      ensures Valid() && View() == Next(old(View()), BeginTurn)
    {
      StepKeeps(View(), BeginTurn);
      hide Inv;
      turn := turn + 1;
      loop := Clearing;
    }

    method PromptClearsAnswered()
      requires Valid() && Enabled(View(), Clear)
      modifies this
      ensures Valid() && View() == Next(old(View()), Clear)
    {
      StepKeeps(View(), Clear);
      hide Inv;
      answered := {};
      loop := Idle;
    }
  }

  // ----- What every interleaving keeps -----

  predicate IsReplyTo(w: Written, i: nat) {
    (w.Result? || w.TooMany?) && w.entry == i
  }

  predicate RepliedTo(written: seq<Written>, i: nat) {
    exists k :: 0 <= k < |written| && IsReplyTo(written[k], i)
  }

  /** The interaction is the one `frame` asks for. */
  ghost predicate ComesFrom(e: Entry) {
    exists o: Observer, at: nat :: AcpReplies.Interact(o.provider, o.session, e.frame, at) == Some(e.interaction)
  }

  ghost predicate EntryOk(s: State, i: nat)
    requires i < |s.entries|
  {
    var e := s.entries[i];
    && ComesFrom(e)
    && e.turn <= s.turn
    && (e.turn == s.turn ==> !s.loop.Clearing? && e.interaction.rpcId in s.answered)
    && (i in s.pending <==> e.stage.Waiting?)
    && (e.stage.Waiting? ==> e.turn == s.turn && !s.loop.Prompting?)
    && (e.stage.Entered? || e.stage.Refused? || e.stage.LetIn? <==> s.loop == Handling(i))
    && (s.loop == Handling(i) ==> e.turn == s.turn)
  }

  ghost predicate AcceptedOnce(s: State) {
    forall i, j :: 0 <= i < j < |s.entries| && s.entries[i].interaction.rpcId == s.entries[j].interaction.rpcId ==>
      s.entries[i].turn != s.entries[j].turn
  }

  ghost predicate Table(s: State) {
    && (forall i :: 0 <= i < |s.entries| ==> EntryOk(s, i))
    && (forall i :: i in s.pending ==> i < |s.entries|)
    && |s.pending| <= (if s.loop.Handling? && StageIs(s, s.loop.entry, LetIn) then MAX_PENDING - 1 else MAX_PENDING)
  }

  /** Every reply written to an entry has the entry's id, is its only one, and is either a
      refusal or what its route makes of a response. */
  ghost predicate Replies(s: State) {
    && (forall i :: 0 <= i < |s.entries| ==> (s.entries[i].stage.Replied? <==> RepliedTo(s.written, i)))
    && (forall k :: 0 <= k < |s.written| && (s.written[k].Result? || s.written[k].TooMany?) ==>
          ReplyOk(s, s.written[k]))
    && (forall i: nat, k, l :: 0 <= k < |s.written| && 0 <= l < |s.written| ==>
          IsReplyTo(s.written[k], i) && IsReplyTo(s.written[l], i) ==> k == l)
  }

  ghost predicate ReplyOk(s: State, w: Written)
    requires w.Result? || w.TooMany?
  {
    && w.entry < |s.entries| && w.id == s.entries[w.entry].interaction.rpcId
    && (w.Result? ==> exists r :: w.reply == AcpReplies.Respond(s.entries[w.entry].interaction.route, r))
  }

  /** What every state of the client and its threads satisfies. */
  ghost predicate Inv(s: State) {
    Table(s) && AcceptedOnce(s) && Replies(s)
  }

  lemma InitKeeps()
    ensures Inv(INITIAL)
  {
  }

  lemma ArriveKeepsTable(s: State, frame: AcpReplies.Frame, at: nat)
    requires Table(s) && Enabled(s, Arrive(frame, at))
    ensures Table(Next(s, Arrive(frame, at)))
  {
    hide AcpReplies.Interact;
    var t := Next(s, Arrive(frame, at));
    forall i | 0 <= i < |t.entries|
      ensures EntryOk(t, i)
    {
      if i < |s.entries| {
        assert EntryOk(s, i);
      } else {
        var o := s.observer.value;
        assert AcpReplies.Interact(o.provider, o.session, frame, at) == Some(t.entries[i].interaction);
        assert ComesFrom(t.entries[i]);
      }
    }
  }

  lemma HandlingKeepsTable(s: State, a: Action)
    requires Table(s) && Enabled(s, a) && (a.Count? || a.Refuse? || a.Reply?)
    ensures Table(Next(s, a))
  {
    hide ComesFrom, AcpReplies.Respond;
    var t := Next(s, a);
    assert s.loop.Handling? && s.loop.entry < |s.entries| ==> EntryOk(s, s.loop.entry);
    forall i | 0 <= i < |t.entries|
      ensures EntryOk(t, i)
    {
      SameInteraction(s, a, i);
      assert EntryOk(s, i);
    }
  }

  lemma WaitKeepsTable(s: State, a: Action)
    requires Table(s) && Enabled(s, a) && a.LetWait?
    ensures Table(Next(s, a))
  {
    hide ComesFrom, AcpReplies.Respond;
    var t := Next(s, a);
    assert EntryOk(s, s.loop.entry) && |t.pending| <= |s.pending| + 1;
    forall i | 0 <= i < |t.entries|
      ensures EntryOk(t, i)
    {
      SameInteraction(s, a, i);
      assert EntryOk(s, i);
    }
  }

  lemma FinishKeepsTable(s: State, a: Action)
    requires Table(s) && Enabled(s, a) && a.Finish?
    ensures Table(Next(s, a))
  {
    hide ComesFrom, AcpReplies.Respond;
    var t := Next(s, a);
    assert EntryOk(s, a.entry) && t.pending + {a.entry} == s.pending;
    forall i | 0 <= i < |t.entries|
      ensures EntryOk(t, i)
    {
      SameInteraction(s, a, i);
      assert EntryOk(s, i);
    }
  }

  lemma TurnKeepsTable(s: State, a: Action)
    requires Table(s) && Enabled(s, a) && (a.Open? || a.Prompt? || a.BeginTurn? || a.Clear?)
    ensures Table(Next(s, a))
  {
    hide ComesFrom, AcpReplies.Respond;
    var t := Next(s, a);
    forall i | 0 <= i < |t.entries|
      ensures EntryOk(t, i)
    {
      SameInteraction(s, a, i);
      assert EntryOk(s, i);
    }
  }

  lemma SameInteraction(s: State, a: Action, i: nat)
    requires Enabled(s, a) && i < |s.entries|
    ensures i < |Next(s, a).entries|
    ensures var e, f := s.entries[i], Next(s, a).entries[i];
            e.frame == f.frame && e.interaction == f.interaction && e.turn == f.turn
            && (ComesFrom(e) <==> ComesFrom(f))
  {
    hide AcpReplies.Respond, AcpReplies.Interact;
  }

  lemma KeepsAcceptedOnce(s: State, a: Action)
    requires Table(s) && AcceptedOnce(s) && Enabled(s, a)
    ensures AcceptedOnce(Next(s, a))
  {
    hide ComesFrom, AcpReplies.Respond, AcpReplies.Interact;
    var t := Next(s, a);
    forall i, j | 0 <= i < j < |t.entries| && t.entries[i].interaction.rpcId == t.entries[j].interaction.rpcId
      ensures t.entries[i].turn != t.entries[j].turn
    {
      assert EntryOk(s, i);
      SameInteraction(s, a, i);
      if j < |s.entries| {
        SameInteraction(s, a, j);
      }
    }
  }

  /** A reply to entry `e` is appended. */
  lemma ReplyKeepsReplies(s: State, e: nat, w: Written)
    requires Replies(s) && e < |s.entries| && !s.entries[e].stage.Replied?
    requires IsReplyTo(w, e) && ReplyOk(s, w)
    ensures Replies(s.(written := s.written + [w], entries := WithStage(s.entries, e, Replied)))
  {
    hide AcpReplies.Respond;
    var t := s.(written := s.written + [w], entries := WithStage(s.entries, e, Replied));
    var n := |s.written|;
    assert forall k :: 0 <= k < n ==> t.written[k] == s.written[k];
    assert t.written[n] == w;
    forall i | 0 <= i < |t.entries|
      ensures t.entries[i].stage.Replied? <==> RepliedTo(t.written, i)
    {
      if i == e {
        assert IsReplyTo(t.written[n], e);
      } else if RepliedTo(s.written, i) {
        var k :| 0 <= k < n && IsReplyTo(s.written[k], i);
        assert IsReplyTo(t.written[k], i);
      }
    }
    forall k | 0 <= k < |t.written| && (t.written[k].Result? || t.written[k].TooMany?)
      ensures ReplyOk(t, t.written[k])
    {
      assert k < n ==> ReplyOk(s, s.written[k]);
    }
    assert !RepliedTo(s.written, e);
  }

  /** A frame that answers no entry is appended. */
  lemma ErrorKeepsReplies(s: State, w: Written)
    requires Replies(s) && (w.Unsupported? || w.NotReady?)
    ensures Replies(s.(written := s.written + [w]))
  {
    hide AcpReplies.Respond;
    var t := s.(written := s.written + [w]);
    var n := |s.written|;
    assert forall k :: 0 <= k < n ==> t.written[k] == s.written[k];
    forall i | 0 <= i < |t.entries|
      ensures t.entries[i].stage.Replied? <==> RepliedTo(t.written, i)
    {
      if RepliedTo(s.written, i) {
        var k :| 0 <= k < n && IsReplyTo(s.written[k], i);
        assert IsReplyTo(t.written[k], i);
      }
    }
    forall k | 0 <= k < |t.written| && (t.written[k].Result? || t.written[k].TooMany?)
      ensures ReplyOk(t, t.written[k])
    {
      assert ReplyOk(s, s.written[k]);
    }
  }

  lemma RepliedIsEntry(s: State, i: nat)
    requires Replies(s) && RepliedTo(s.written, i)
    ensures i < |s.entries|
  {
    hide AcpReplies.Respond;
    var k :| 0 <= k < |s.written| && IsReplyTo(s.written[k], i);
    assert ReplyOk(s, s.written[k]);
  }

  /** Nothing is written, and no entry is replied to. */
  lemma SilentKeepsReplies(s: State, t: State)
    requires Replies(s) && t.written == s.written && |s.entries| <= |t.entries|
    requires forall i :: 0 <= i < |s.entries| ==>
               && t.entries[i].interaction == s.entries[i].interaction
               && t.entries[i].stage.Replied? == s.entries[i].stage.Replied?
    requires forall i :: |s.entries| <= i < |t.entries| ==> !t.entries[i].stage.Replied?
    ensures Replies(t)
  {
    hide AcpReplies.Respond;
    forall i | 0 <= i < |t.entries|
      ensures t.entries[i].stage.Replied? <==> RepliedTo(t.written, i)
    {
      if RepliedTo(s.written, i) {
        RepliedIsEntry(s, i);
      }
    }
    forall k | 0 <= k < |t.written| && (t.written[k].Result? || t.written[k].TooMany?)
      ensures ReplyOk(t, t.written[k])
    {
      assert ReplyOk(s, s.written[k]);
    }
  }

  lemma KeepsReplies(s: State, a: Action)
    requires Table(s) && Replies(s) && Enabled(s, a)
    ensures Replies(Next(s, a))
  {
    var t := Next(s, a);
    if a.Reply? {
      ResultIsOk(s, a.entry);
      hide Replies, AcpReplies.Respond;
      ReplyKeepsReplies(s, a.entry, ResultOf(s.entries, a.entry));
    } else if a.Refuse? {
      hide Replies, AcpReplies.Respond;
      var i := s.loop.entry;
      ReplyKeepsReplies(s, i, TooMany(i, IdOf(s.entries, i)));
      SilentKeepsReplies(t.(loop := s.loop), t);
    } else if a.Arrive? && t.written != s.written {
      hide Replies, AcpReplies.Respond, AcpReplies.Interact;
      ErrorKeepsReplies(s, t.written[|s.written|]);
    } else {
      hide Replies, AcpReplies.Respond, AcpReplies.Interact, ComesFrom;
      SilentKeepsReplies(s, t);
    }
  }

  lemma ResultIsOk(s: State, i: nat)
    requires i < |s.entries| && s.entries[i].stage.Answered?
    ensures ReplyOk(s, ResultOf(s.entries, i))
  {
  }

  lemma StepKeeps(s: State, a: Action)
    requires Inv(s) && Enabled(s, a)
    ensures Inv(Next(s, a))
  {
    hide Table, AcceptedOnce, Replies, Enabled, Next;
    match a {
      case Arrive(frame, at) => ArriveKeepsTable(s, frame, at);
      case Count | Refuse | Reply(_) => HandlingKeepsTable(s, a);
      case LetWait => WaitKeepsTable(s, a);
      case Finish(_, _) => FinishKeepsTable(s, a);
      case _ => TurnKeepsTable(s, a);
    }
    KeepsAcceptedOnce(s, a);
    KeepsReplies(s, a);
  }

  // ----- Runs -----

  /** An action that is not enabled does not happen, so every sequence of actions is a run. */
  function Do(s: State, a: Action): State {
    if Enabled(s, a) then Next(s, a) else s
  }

  function After(actions: seq<Action>): State {
    if actions == [] then INITIAL else Do(After(actions[..|actions| - 1]), actions[|actions| - 1])
  }

  lemma {:induction false} EveryRunKeeps(actions: seq<Action>)
    ensures Inv(After(actions))
  {
    hide Inv, Enabled, Next;
    if actions == [] {
      InitKeeps();
    } else {
      var front, last := actions[..|actions| - 1], actions[|actions| - 1];
      EveryRunKeeps(front);
      if Enabled(After(front), last) {
        StepKeeps(After(front), last);
      }
    }
  }

  /** At most 16 interactions wait at once. Each waits in the turn it was accepted in, with its
      id in `answered` however turns begin, and each id is accepted at most once in a turn. */
  lemma PendingIsBounded(actions: seq<Action>)
    ensures var s := After(actions);
            && |s.pending| <= 16
            && (forall i :: i in s.pending ==>
                  i < |s.entries| && s.entries[i].turn == s.turn && IdOf(s.entries, i) in s.answered)
            && (forall i, j :: 0 <= i < j < |s.entries| && IdOf(s.entries, i) == IdOf(s.entries, j) ==>
                  s.entries[i].turn != s.entries[j].turn)
  {
    EveryRunKeeps(actions);
    hide After, ComesFrom;
    var s := After(actions);
    assert forall i :: i in s.pending ==> EntryOk(s, i);
  }

  /** No accepted interaction is replied to twice, and every reply goes to the interaction's
      own id, selecting only an option and accepting only questions of the frame it answers. */
  lemma RepliesAreFaithful(actions: seq<Action>, k: nat)
    requires k < |After(actions).written|
    requires After(actions).written[k].Result? || After(actions).written[k].TooMany?
    ensures var s := After(actions);
            var w := s.written[k];
            && w.entry < |s.entries|
            && s.entries[w.entry].frame.id == Some(w.id)
            && (forall l :: 0 <= l < |s.written| && IsReplyTo(s.written[l], w.entry) ==> l == k)
            && (w.Result? && w.reply.Selected? ==> AcpReplies.OfferedIn(s.entries[w.entry].frame, w.reply.optionId))
            && (w.Result? && w.reply.Accepted? ==> AcpReplies.AskedIn(s.entries[w.entry].frame, w.reply.answers.Keys))
  {
    EveryRunKeeps(actions);
    hide After, AcpReplies.Respond, AcpReplies.Interact, AcpReplies.OfferedIn, AcpReplies.AskedIn;
    var s := After(actions);
    var w := s.written[k];
    assert ReplyOk(s, w) && IsReplyTo(w, w.entry);
    var e := s.entries[w.entry];
    assert EntryOk(s, w.entry) && ComesFrom(e);
    var o: Observer, at: nat :| AcpReplies.Interact(o.provider, o.session, e.frame, at) == Some(e.interaction);
    AcpReplies.ReplyStaysInFrame(o.provider, o.session, e.frame, at, None);
    if w.Result? {
      var r :| w.reply == AcpReplies.Respond(e.interaction.route, r);
      AcpReplies.ReplyStaysInFrame(o.provider, o.session, e.frame, at, r);
    }
  }

  // ----- What becomes of a frame -----

  /** A frame that arrives: without a session it is answered as not ready; one that is addressed to this
      session and asks for something is entered under its own id, with the kind and route that follow
      from its JSON, unless that id was taken in this turn, and nothing is written; any other is
      answered as unsupported. */
  lemma FrameMeans(s: State, frame: AcpReplies.Frame, at: nat)
    requires Enabled(s, Arrive(frame, at))
    ensures var t := Next(s, Arrive(frame, at));
            if s.observer.None? then t == s.(written := s.written + [NotReady(frame.id.value)])
            else
              var o := s.observer.value;
              if && AcpFrames.Addressed(o.provider, o.session, frame, at)
                 && AcpFrames.Asks(o.provider, frame.rpcMethod.value, frame.params.value)
              then
                if frame.id.value in s.answered then t == s
                else
                  && |t.entries| == |s.entries| + 1
                  && EntersAs(t.entries[|s.entries|], o.provider, frame, s.turn)
                  && t == s.(answered := s.answered + {frame.id.value}, loop := Handling(|s.entries|),
                             entries := s.entries + [t.entries[|s.entries|]])
              else t == s.(written := s.written + [Unsupported(frame.id.value)])
  {
    if s.observer.Some? {
      AcpFrames.InteractMeans(s.observer.value.provider, s.observer.value.session, frame, at);
    }
    hide AcpReplies.Interact, AcpFrames.Addressed, AcpFrames.Asks, AcpFrames.Yields;
  }

  ghost predicate EntersAs(e: Entry, provider: AcpReplies.Provider, frame: AcpReplies.Frame, turn: nat)
    requires frame.rpcMethod.Some? && frame.params.Some?
  {
    && e.frame == frame && e.turn == turn && e.stage == Entered && Some(e.interaction.rpcId) == frame.id
    && AcpFrames.Yields(provider, frame.rpcMethod.value, frame.params.value, e.interaction.kind, e.interaction.route)
    && (e.interaction.approvable <==>
          e.interaction.route.GrokPlan? || (e.interaction.route.Permission? && e.interaction.route.allow.Some?))
  }

  /** The entry being handled is refused exactly when 16 interactions wait already, and otherwise let in. */
  lemma CountMeans(s: State)
    requires Enabled(s, Count)
    ensures var i, t := s.loop.entry, Next(s, Count);
            && t == s.(entries := t.entries) && |t.entries| == |s.entries|
            && t.entries[i] == s.entries[i].(stage := if |s.pending| < 16 then LetIn else Refused)
            && forall j :: 0 <= j < |s.entries| && j != i ==> t.entries[j] == s.entries[j]
  {
  }

  // ----- Replies under one id -----

  lemma AfterOneMore(actions: seq<Action>, n: nat)
    requires n < |actions|
    ensures After(actions[..n + 1]) == Do(After(actions[..n]), actions[n])
  {
    assert actions[..n + 1][..n] == actions[..n];
  }

  /** Action `b` begins a turn. */
  ghost predicate Begins(actions: seq<Action>, b: int) {
    0 <= b < |actions| && actions[b].BeginTurn? && Enabled(After(actions[..b]), BeginTurn)
  }

  /** Action `k` replies to entry `i`. */
  ghost predicate RepliesAt(actions: seq<Action>, k: int, i: nat) {
    0 <= k < |actions| && Enabled(After(actions[..k]), actions[k])
    && (actions[k] == Reply(i) || (actions[k] == Refuse && After(actions[..k]).loop == Handling(i)))
  }

  /** A turn began while entry `i` was out of `pending` and not replied to. */
  ghost predicate Overtaken(actions: seq<Action>, n: nat, i: nat) {
    exists b :: 0 <= b < n <= |actions| && Begins(actions, b)
                && i < |After(actions[..b]).entries| && After(actions[..b]).entries[i].stage.Answered?
  }

  /** Entries stay, with the frame, interaction and turn they were accepted with, and once replied to
      stay so; turns go up by one where one begins. */
  lemma EntriesStay(s: State, a: Action)
    ensures var t := Do(s, a);
            && |s.entries| <= |t.entries|
            && (forall i :: 0 <= i < |s.entries| ==>
                  t.entries[i].turn == s.entries[i].turn && t.entries[i].interaction == s.entries[i].interaction
                  && (s.entries[i].stage.Replied? && Inv(s) ==> t.entries[i].stage.Replied?))
            && (forall i :: |s.entries| <= i < |t.entries| ==> t.entries[i].turn == s.turn)
            && t.turn == s.turn + if a.BeginTurn? && Enabled(s, a) then 1 else 0
  {
    hide AcpReplies.Respond, AcpReplies.Interact, Replies, AcceptedOnce, ComesFrom;
    if Inv(s) && s.loop.Handling? && s.loop.entry < |s.entries| {
      assert EntryOk(s, s.loop.entry);
    }
  }

  lemma {:induction false} EntriesGrow(actions: seq<Action>, m: nat, n: nat)
    requires m <= n <= |actions|
    ensures |After(actions[..m]).entries| <= |After(actions[..n]).entries|
    ensures After(actions[..m]).turn <= After(actions[..n]).turn
    ensures After(actions[..m]).turn == After(actions[..n]).turn <==> forall b :: m <= b < n ==> !Begins(actions, b)
    ensures forall i :: 0 <= i < |After(actions[..m]).entries| ==>
              After(actions[..n]).entries[i].turn == After(actions[..m]).entries[i].turn
              && After(actions[..n]).entries[i].interaction == After(actions[..m]).entries[i].interaction
    decreases n
  {
    hide After, Do, Inv, Enabled;
    if m < n {
      EntriesGrow(actions, m, n - 1);
      AfterOneMore(actions, n - 1);
      EntriesStay(After(actions[..n - 1]), actions[n - 1]);
      assert Begins(actions, n - 1) <==> actions[n - 1].BeginTurn? && Enabled(After(actions[..n - 1]), actions[n - 1]);
    }
  }

  /** When a turn begins, every entry not replied to is out of `pending` with its response. */
  lemma BeginFindsAnswered(s: State, i: nat)
    requires Inv(s) && Enabled(s, BeginTurn) && i < |s.entries|
    ensures s.entries[i].turn <= s.turn && (s.entries[i].stage.Replied? || s.entries[i].stage.Answered?)
  {
    hide Replies, AcceptedOnce, ComesFrom;
    assert EntryOk(s, i);
  }

  /** An entry not replied to yet is of an earlier turn exactly when it was overtaken. */
  lemma {:induction false} LateIsOvertaken(actions: seq<Action>, n: nat, i: nat)
    requires n <= |actions| && i < |After(actions[..n]).entries| && !After(actions[..n]).entries[i].stage.Replied?
    ensures After(actions[..n]).entries[i].turn < After(actions[..n]).turn <==> Overtaken(actions, n, i)
    decreases n
  {
    if n > 0 {
      var m := n - 1;
      hide After, Do, Inv, Enabled;
      var before := After(actions[..m]);
      AfterOneMore(actions, m);
      EveryRunKeeps(actions[..m]);
      EntriesStay(before, actions[m]);
      if i >= |before.entries| {
        forall b | 0 <= b < n
          ensures |After(actions[..b]).entries| <= i
        {
          EntriesGrow(actions, b, m);
        }
        NewEntryIsNow(before, actions[m], i);
      } else {
        LateIsOvertaken(actions, m, i);
        OvertakenStep(actions, m, n, i);
        if Begins(actions, m) {
          BeginFindsAnswered(before, i);
        }
      }
    }
  }

  lemma NewEntryIsNow(s: State, a: Action, i: nat)
    requires |s.entries| <= i < |Do(s, a).entries|
    ensures Do(s, a).entries[i].turn == Do(s, a).turn
  {
    hide AcpReplies.Respond, AcpReplies.Interact;
  }

  lemma OvertakenStep(actions: seq<Action>, m: nat, n: nat, i: nat)
    requires m + 1 == n <= |actions| && i < |After(actions[..m]).entries|
    ensures Overtaken(actions, n, i)
            <==> Overtaken(actions, m, i) || (Begins(actions, m) && After(actions[..m]).entries[i].stage.Answered?)
  {
    hide After, Begins;
  }

  /** A reply goes out in a later turn than its interaction was accepted in exactly when a turn began
      between the reply thread's two steps. */
  lemma LateReply(actions: seq<Action>, k: nat, i: nat)
    requires RepliesAt(actions, k, i)
    ensures i < |After(actions[..k]).entries|
    ensures After(actions[..k]).entries[i].turn < After(actions[..k]).turn <==> Overtaken(actions, k, i)
  {
    assert i < |After(actions[..k]).entries| && !After(actions[..k]).entries[i].stage.Replied?;
    hide After, Enabled, Overtaken;
    LateIsOvertaken(actions, k, i);
  }

  /** Two replies to different interactions with one id go out in one turn exactly when no turn
      begins between them; and then one of the two had been overtaken by a new turn. */
  lemma SharedId(actions: seq<Action>, j: nat, k: nat, i: nat, e: nat)
    requires j < k && i != e && RepliesAt(actions, j, i) && RepliesAt(actions, k, e)
    requires var s := After(actions[..k]);
             i < |s.entries| && e < |s.entries| && IdOf(s.entries, i) == IdOf(s.entries, e)
    ensures After(actions[..j]).turn == After(actions[..k]).turn <==> forall b :: j <= b < k ==> !Begins(actions, b)
    ensures After(actions[..j]).turn == After(actions[..k]).turn ==>
              Overtaken(actions, j, i) || Overtaken(actions, k, e)
  {
    LateReply(actions, j, i);
    LateReply(actions, k, e);
    EntriesGrow(actions, j, k);
    EveryRunKeeps(actions[..k]);
    hide After, Begins, Overtaken, RepliesAt, Table, Replies;
    var s := After(actions[..k]);
    TurnsBounded(actions[..k], i);
    TurnsBounded(actions[..k], e);
    assert s.entries[i].turn != s.entries[e].turn by {
      assert AcceptedOnce(s);
      var a, b := if i < e then i else e, if i < e then e else i;
      assert a < b && s.entries[a].interaction.rpcId == s.entries[b].interaction.rpcId;
    }
  }

  lemma TurnsBounded(actions: seq<Action>, i: nat)
    requires i < |After(actions).entries|
    ensures After(actions).entries[i].turn <= After(actions).turn
  {
    EveryRunKeeps(actions);
    hide After, ComesFrom, Replies, AcceptedOnce;
    assert EntryOk(After(actions), i);
  }

  // ----- A run with two replies under one id in one turn -----

  lemma AfterPlus(actions: seq<Action>, a: Action)
    ensures After(actions + [a]) == Do(After(actions), a)
  {
    assert (actions + [a])[..|actions|] == actions;
  }

  function FirstTurn(o: Observer, frame: AcpReplies.Frame, at: nat): (r: seq<Action>)
    ensures |r| == 8
  {
    [Open(o), Arrive(frame, at), Count, LetWait, Finish(0, None), Prompt, BeginTurn, Clear]
  }

  function SecondTurn(frame: AcpReplies.Frame, at: nat): (r: seq<Action>)
    ensures |r| == 6
  {
    [Arrive(frame, at), Count, LetWait, Finish(1, None), Reply(0), Reply(1)]
  }

  /** The actions one after the other. */
  function Play(s: State, actions: seq<Action>): State
    decreases actions
  {
    if actions == [] then s else Play(Do(s, actions[0]), actions[1..])
  }

  lemma {:induction false} AfterPlays(front: seq<Action>, rest: seq<Action>)
    ensures After(front + rest) == Play(After(front), rest)
    decreases rest
  {
    hide Do;
    if rest == [] {
      assert front + rest == front;
    } else {
      AfterPlus(front, rest[0]);
      assert front + rest == front + [rest[0]] + rest[1..];
      AfterPlays(front + [rest[0]], rest[1..]);
    }
  }

  lemma FirstTurnLeaves(o: Observer, frame: AcpReplies.Frame, at: nat, x: AcpReplies.Interaction)
    requires frame.id.Some? && AcpReplies.Interact(o.provider, o.session, frame, at) == Some(x)
    ensures Play(INITIAL, FirstTurn(o, frame, at))
         == State(Some(o), 1, {}, {}, [Entry(frame, x, 0, Answered(None))], Idle, [])
  {
    hide AcpReplies.Interact, AcpReplies.Respond;
    var run := FirstTurn(o, frame, at);
    var s1 := State(Some(o), 0, {}, {}, [], Idle, []);
    assert Do(INITIAL, run[0]) == s1;
    var s2 := s1.(answered := {x.rpcId}, entries := [Entry(frame, x, 0, Entered)], loop := Handling(0));
    assert Do(s1, run[1]) == s2;
    var s3 := s2.(entries := [Entry(frame, x, 0, LetIn)]);
    assert Do(s2, run[2]) == s3;
    var s4 := s3.(entries := [Entry(frame, x, 0, Waiting)], pending := {0}, loop := Idle);
    assert Do(s3, run[3]) == s4;
    var s5 := s4.(entries := [Entry(frame, x, 0, Answered(None))], pending := {});
    assert Do(s4, run[4]) == s5;
    assert Do(s5, run[5]) == s5.(loop := Prompting);
    assert Do(s5.(loop := Prompting), run[6]) == s5.(loop := Clearing, turn := 1);
    assert Do(s5.(loop := Clearing, turn := 1), run[7]) == s5.(turn := 1, answered := {}, loop := Idle);
    hide Do;
    PlayEight(INITIAL, run);
  }

  lemma PlayEight(s: State, run: seq<Action>)
    requires |run| == 8
    ensures Play(s, run)
         == Do(Do(Do(Do(Do(Do(Do(Do(s, run[0]), run[1]), run[2]), run[3]), run[4]), run[5]), run[6]), run[7])
  {
    hide Do;
    PlayFour(s, run);
    PlayFour(Do(Do(Do(Do(s, run[0]), run[1]), run[2]), run[3]), run[4..]);
  }

  lemma PlayFour(s: State, run: seq<Action>)
    requires |run| >= 4
    ensures Play(s, run) == Play(Do(Do(Do(Do(s, run[0]), run[1]), run[2]), run[3]), run[4..])
  {
    hide Do;
    var s1 := Do(s, run[0]);
    var s2 := Do(s1, run[1]);
    var s3 := Do(s2, run[2]);
    assert Play(s, run) == Play(s1, run[1..]);
    assert run[1..][0] == run[1] && run[1..][1..] == run[2..];
    assert Play(s1, run[1..]) == Play(s2, run[2..]);
    assert run[2..][0] == run[2] && run[2..][1..] == run[3..];
    assert Play(s2, run[2..]) == Play(s3, run[3..]);
    assert run[3..][0] == run[3] && run[3..][1..] == run[4..];
  }

  /** An agent that reuses an id in the next turn, before the reply thread of the turn before has
      written, gets two results under that id in the same turn. */
  lemma TwoResultsInOneTurn(o: Observer, frame: AcpReplies.Frame, at: nat, x: AcpReplies.Interaction)
    requires AcpReplies.Interact(o.provider, o.session, frame, at) == Some(x)
    ensures var run := FirstTurn(o, frame, at) + SecondTurn(frame, at);
            var reply := AcpReplies.Respond(x.route, None);
            && After(run[..12]).turn == After(run).turn == 1
            && After(run[..12]).written == []
            && After(run).written == [Result(0, x.rpcId, reply), Result(1, x.rpcId, reply)]
  {
    hide Do, Play, FirstTurn, SecondTurn, AcpReplies.Interact, AcpReplies.Respond;
    var first, second := FirstTurn(o, frame, at), SecondTurn(frame, at);
    var run := first + second;
    assert frame.id.Some? by { ArrivalHasId(o, frame, at); }
    FirstTurnLeaves(o, frame, at, x);
    assert [] + first == first;
    AfterPlays([], first);
    var s0 := State(Some(o), 1, {}, {}, [Entry(frame, x, 0, Answered(None))], Idle, []);
    SecondTurnReplies(s0, o, frame, at, x);
    AfterPlays(first, second);
    AfterPlays(first, second[..4]);
    assert run[..12] == first + second[..4];
  }

  lemma SecondTurnReplies(s0: State, o: Observer, frame: AcpReplies.Frame, at: nat, x: AcpReplies.Interaction)
    requires frame.id.Some? && AcpReplies.Interact(o.provider, o.session, frame, at) == Some(x)
    requires s0 == State(Some(o), 1, {}, {}, [Entry(frame, x, 0, Answered(None))], Idle, [])
    ensures var second := SecondTurn(frame, at);
            var reply := AcpReplies.Respond(x.route, None);
            && Play(s0, second[..4]).turn == Play(s0, second).turn == 1
            && Play(s0, second[..4]).written == []
            && Play(s0, second).written == [Result(0, x.rpcId, reply), Result(1, x.rpcId, reply)]
  {
    hide AcpReplies.Interact, AcpReplies.Respond;
    var second := SecondTurn(frame, at);
    var front, last := second[..4], [Reply(0), Reply(1)];
    assert second[4..] == last && front[4..] == [];
    var earlier, now := Entry(frame, x, 0, Answered(None)), Entry(frame, x, 1, Entered);
    var s0 := State(Some(o), 1, {}, {}, [earlier], Idle, []);
    var s1 := s0.(answered := {x.rpcId}, entries := [earlier, now], loop := Handling(1));
    assert Do(s0, front[0]) == s1;
    var s2 := s1.(entries := [earlier, now.(stage := LetIn)]);
    assert Do(s1, front[1]) == s2;
    var s3 := s2.(entries := [earlier, now.(stage := Waiting)], pending := {1}, loop := Idle);
    assert Do(s2, front[2]) == s3;
    var s4 := s3.(entries := [earlier, now.(stage := Answered(None))], pending := {});
    assert Do(s3, front[3]) == s4;
    SecondReplies(s4, frame, x);
    hide Do;
    PlayFour(s0, second);
    PlayFour(s0, front);
    assert Play(s4, []) == s4;
  }

  lemma ArrivalHasId(o: Observer, frame: AcpReplies.Frame, at: nat)
    ensures AcpReplies.Interact(o.provider, o.session, frame, at).Some? ==> frame.id.Some?
  {
  }

  lemma SecondReplies(s: State, frame: AcpReplies.Frame, x: AcpReplies.Interaction)
    requires s.entries == [Entry(frame, x, 0, Answered(None)), Entry(frame, x, 1, Answered(None))] && s.written == []
    ensures var t := Play(s, [Reply(0), Reply(1)]);
            var reply := AcpReplies.Respond(x.route, None);
            t.turn == s.turn && t.written == [Result(0, x.rpcId, reply), Result(1, x.rpcId, reply)]
  {
    hide AcpReplies.Respond;
    var t := Do(s, Reply(0));
    assert t.entries[1] == s.entries[1] && t.written == [Result(0, x.rpcId, AcpReplies.Respond(x.route, None))];
    var u := Do(t, Reply(1));
    assert u.written == t.written + [Result(1, x.rpcId, AcpReplies.Respond(x.route, None))];
    PlayTwo(s, Reply(0), Reply(1));
  }

  lemma PlayTwo(s: State, a: Action, b: Action)
    ensures Play(s, [a, b]) == Do(Do(s, a), b)
  {
    hide Do;
    assert [a, b][1..] == [b] && [b][1..] == [];
    assert Play(Do(s, a), [b]) == Play(Do(Do(s, a), b), []);
  }
}
