/** The tool calls `Observer::notification` of `crates/providers/src/acp.rs` keeps for a turn,
    and the events it makes of their updates. */
module ToolUpdates {
  import opened Options
  import opened JsonValues
  import AcpReplies

  const MAX_TOOLS := 4096
  const STATUS := "status"

  /** A tool call as reported so far: each field as last sent. */
  type Tool = map<string, Json>

  datatype ToolEvent = PreToolUse | PostToolUse | PostToolUseFailure

  datatype Report = Report(id: string, event: ToolEvent)

  function Word(e: ToolEvent): string {
    match e
    case PreToolUse => "in_progress"
    case PostToolUse => "completed"
    case PostToolUseFailure => "failed"
  }

  function EventOf(state: string): Option<ToolEvent> {
    if state == "in_progress" then Some(PreToolUse)
    else if state == "completed" then Some(PostToolUse)
    else if state == "failed" then Some(PostToolUseFailure)
    else None
  }

  function StatusOf(tool: Tool): Option<string> {
    if STATUS in tool then tool[STATUS].AsText() else None
  }

  function IdOf(update: Tool): Option<string> {
    AcpReplies.Bounded(Object(update).At("toolCallId"), 256)
  }

  function ToolOf(tools: map<string, Tool>, id: string): Tool {
    if id in tools then tools[id] else map[]
  }

  /** A `tool_call` or `tool_call_update`, as an object. */
  function Noted(tools: map<string, Tool>, update: Tool): (map<string, Tool>, Option<Report>) {
    var id := IdOf(update);
    if id.None? || (|tools| >= MAX_TOOLS && id.value !in tools) then (tools, None)
    else
      var kept := ToolOf(tools, id.value);
      var tool := kept + update;
      var state := StatusOf(tool).GetOr("pending");
      (tools[id.value := tool],
       if StatusOf(kept) == Some(state) || EventOf(state).None? then None
       else Some(Report(id.value, EventOf(state).value)))
  }

  class Observer {
    var tools: map<string, Tool>

    constructor ()
      ensures tools == map[]
    {
      tools := map[];
    }

    method BeginTurn()
      modifies this
      ensures tools == map[]
    {
      tools := map[];
    }

    method Notification(update: Tool) returns (report: Option<Report>)
      modifies this
      ensures (tools, report) == Noted(old(tools), update)
    {
      hide AcpReplies.Bounded, EventOf;
      var id := AcpReplies.Bounded(Object(update).At("toolCallId"), 256);
      if id.None? {
        return None;
      }
      if |tools| >= MAX_TOOLS && id.value !in tools {
        return None;
      }
      var kept := ToolOf(tools, id.value);
      var tool := CopyFields(kept, update);
      tools := tools[id.value := tool];
      var state := StatusOf(tool).GetOr("pending");
      if StatusOf(kept) == Some(state) || EventOf(state).None? {
        return None;
      }
      return Some(Report(id.value, EventOf(state).value));
    }
  }

  /** Inserts the fields of an update in whatever order it yields them. */
  method CopyFields(kept: Tool, update: Tool) returns (target: Tool)
    ensures target == kept + update
  {
    target := kept;
    var fields := update;
    while fields != map[]
      invariant target + fields == kept + update
      decreases |fields|
    {
      var f :| f in fields;
      MoveField(target, fields, f);
      target := target[f := fields[f]];
      fields := fields - {f};
    }
    assert target + fields == target;
  }

  lemma MoveField(target: Tool, fields: Tool, f: string)
    requires f in fields
    ensures target[f := fields[f]] + (fields - {f}) == target + fields
    ensures |fields - {f}| < |fields|
  {
    assert (fields - {f}).Keys == fields.Keys - {f};
  }

  // ----- Turns -----

  datatype Input = Update(fields: Tool) | NewTurn

  function Do(tools: map<string, Tool>, i: Input): map<string, Tool> {
    if i.NewTurn? then map[] else Noted(tools, i.fields).0
  }

  function After(inputs: seq<Input>): map<string, Tool> {
    if inputs == [] then map[] else Do(After(inputs[..|inputs| - 1]), inputs[|inputs| - 1])
  }

  function ReportAt(inputs: seq<Input>, k: nat): Option<Report>
    requires k < |inputs|
  {
    if inputs[k].NewTurn? then None else Noted(After(inputs[..k]), inputs[k].fields).1
  }

  lemma AfterOneMore(inputs: seq<Input>, n: nat)
    requires n < |inputs|
    ensures After(inputs[..n + 1]) == Do(After(inputs[..n]), inputs[n])
  {
    assert inputs[..n + 1][..n] == inputs[..n];
  }

  /** However many tools are reported, at most 4096 are kept. */
  lemma {:induction false} ToolsBounded(inputs: seq<Input>)
    ensures |After(inputs)| <= 4_096
  {
    if inputs != [] {
      var n := |inputs| - 1;
      ToolsBounded(inputs[..n]);
      var before, after := After(inputs[..n]), After(inputs);
      if !inputs[n].NewTurn? {
        var id := IdOf(inputs[n].fields);
        if id.Some? && after != before {
          assert after.Keys == before.Keys + {id.value};
        }
      }
    }
  }

  /** Input `k` sends field `f` of tool `id`. */
  predicate Sends(i: Input, id: string, f: string) {
    i.Update? && IdOf(i.fields) == Some(id) && f in i.fields
  }

  /** Input `k` is the last before `n`, in the turn at `n`, to send field `f` of tool `id`. */
  ghost predicate LastSent(inputs: seq<Input>, k: int, n: nat, id: string, f: string) {
    0 <= k < n <= |inputs| && Sends(inputs[k], id, f)
    && forall j :: k < j < n ==> !inputs[j].NewTurn? && !Sends(inputs[j], id, f)
  }

  lemma FieldStep(tools: map<string, Tool>, i: Input, id: string, f: string)
    requires id in Do(tools, i)
    ensures var before, after := ToolOf(tools, id), Do(tools, i)[id];
            && i.Update?
            && (if Sends(i, id, f) then f in after && after[f] == i.fields[f]
                else (f in after <==> f in before) && (f in after ==> after[f] == before[f]))
            && (id !in tools ==> before == map[] && |tools| < MAX_TOOLS)
  {
    hide IdOf, StatusOf, EventOf;
  }

  ghost predicate TurnBetween(inputs: seq<Input>, k: int, n: nat) {
    exists j :: k < j < n <= |inputs| && 0 <= j && inputs[j].NewTurn?
  }

  lemma NotedKeeps(tools: map<string, Tool>, update: Tool)
    ensures tools.Keys <= Noted(tools, update).0.Keys && |tools| <= |Noted(tools, update).0|
    ensures |tools| < MAX_TOOLS && IdOf(update).Some? ==> IdOf(update).value in Noted(tools, update).0
  {
    hide IdOf, StatusOf, EventOf, ToolOf;
    var after := Noted(tools, update).0;
    if after != tools {
      assert after.Keys == tools.Keys + {IdOf(update).value};
    }
  }

  /** Input `k` is an update of tool `id`. */
  predicate Updates(i: Input, id: string) {
    i.Update? && IdOf(i.fields) == Some(id)
  }

  lemma StillOut(tools: map<string, Tool>, i: Input, id: string)
    requires id !in Do(tools, i) && |Do(tools, i)| < MAX_TOOLS && !i.NewTurn?
    ensures id !in tools && |tools| < MAX_TOOLS && !Updates(i, id)
  {
    hide IdOf, Noted;
    NotedKeeps(tools, i.fields);
  }

  /** A tool not kept though there is room has had no update in this turn: one refused for lack
      of room stays refused. */
  lemma {:induction false} NothingSentBefore(inputs: seq<Input>, m: nat, id: string)
    requires m <= |inputs| && id !in After(inputs[..m]) && |After(inputs[..m])| < MAX_TOOLS
    ensures forall k :: 0 <= k < m && Updates(inputs[k], id) ==> TurnBetween(inputs, k, m)
  {
    if m > 0 {
      var n := m - 1;
      AfterOneMore(inputs, n);
      hide After, Do, Updates, TurnBetween;
      UpdateIsNoTurn(inputs[n], id);
      if !inputs[n].NewTurn? {
        StillOut(After(inputs[..n]), inputs[n], id);
        NothingSentBefore(inputs, n, id);
      }
      forall k | 0 <= k < m && Updates(inputs[k], id)
        ensures TurnBetween(inputs, k, m)
      {
        TurnStays(inputs, k, n, m);
      }
    }
  }

  lemma TurnStays(inputs: seq<Input>, k: int, n: nat, m: nat)
    requires 0 <= k < m <= |inputs| && n + 1 == m
    ensures k < n && (inputs[n].NewTurn? || TurnBetween(inputs, k, n)) ==> TurnBetween(inputs, k, m)
  {
    if k < n && TurnBetween(inputs, k, n) {
      var j :| k < j < n && inputs[j].NewTurn?;
    }
  }

  lemma UpdateIsNoTurn(i: Input, id: string)
    ensures Updates(i, id) ==> !i.NewTurn?
  {
  }

  /** A kept tool's fields are exactly those of this turn's updates, each as last sent. */
  lemma {:induction false} FieldsAreLastSent(inputs: seq<Input>, n: nat, id: string, f: string, v: Json)
    requires n <= |inputs| && id in After(inputs[..n])
    ensures f in After(inputs[..n])[id] && After(inputs[..n])[id][f] == v
            <==> exists k :: LastSent(inputs, k, n, id, f) && inputs[k].fields[f] == v
  {
    var m := n - 1;
    AfterOneMore(inputs, m);
    FieldStep(After(inputs[..m]), inputs[m], id, f);
    hide IdOf, Do, After, Noted;
    if Sends(inputs[m], id, f) {
      assert LastSent(inputs, m, n, id, f);
    } else {
      if id in After(inputs[..m]) {
        FieldsAreLastSent(inputs, m, id, f, v);
      } else {
        NoneSent(inputs, m, id, f);
      }
      LastSentStep(inputs, m, n, id, f, v);
    }
  }

  lemma NoneSent(inputs: seq<Input>, m: nat, id: string, f: string)
    requires m <= |inputs| && id !in After(inputs[..m]) && |After(inputs[..m])| < MAX_TOOLS
    ensures forall k :: !LastSent(inputs, k, m, id, f)
  {
    NothingSentBefore(inputs, m, id);
    hide IdOf, After;
    assert forall k :: 0 <= k < m && Sends(inputs[k], id, f) ==> Updates(inputs[k], id);
  }

  lemma LastSentStep(inputs: seq<Input>, m: nat, n: nat, id: string, f: string, v: Json)
    requires m + 1 == n <= |inputs| && inputs[m].Update? && !Sends(inputs[m], id, f)
    ensures (exists k :: LastSent(inputs, k, n, id, f) && inputs[k].fields[f] == v)
            <==> exists k :: LastSent(inputs, k, m, id, f) && inputs[k].fields[f] == v
  {
    hide IdOf;
    if k :| LastSent(inputs, k, n, id, f) && inputs[k].fields[f] == v {
      assert LastSent(inputs, k, m, id, f);
    }
    if k :| LastSent(inputs, k, m, id, f) && inputs[k].fields[f] == v {
      assert LastSent(inputs, k, n, id, f);
    }
  }

  // ----- Reports -----

  lemma EventWord(state: string, e: ToolEvent)
    ensures EventOf(state) == Some(e) <==> state == Word(e)
  {
  }

  lemma ReportMeans(inputs: seq<Input>, k: nat, id: string, e: ToolEvent)
    requires k < |inputs| && ReportAt(inputs, k) == Some(Report(id, e))
    ensures id in After(inputs[..k + 1]) && StatusOf(After(inputs[..k + 1])[id]) == Some(Word(e))
    ensures StatusOf(ToolOf(After(inputs[..k]), id)) != Some(Word(e))
  {
    AfterOneMore(inputs, k);
    NotedReport(After(inputs[..k]), inputs[k].fields, id, e);
    hide After, Noted, IdOf, StatusOf, Word, EventOf;
  }

  /** In a run an event is reported exactly at an update that makes the tool's status the event's word. */
  lemma ReportedExactly(inputs: seq<Input>, k: nat, id: string, e: ToolEvent)
    requires k < |inputs|
    ensures ReportAt(inputs, k) == Some(Report(id, e))
            <==> && inputs[k].Update? && Names(inputs[k].fields, id) && id in After(inputs[..k + 1])
                 && Becomes(ToolOf(After(inputs[..k]), id), After(inputs[..k + 1])[id], Word(e))
  {
    AfterOneMore(inputs, k);
    if inputs[k].Update? {
      NotedReport(After(inputs[..k]), inputs[k].fields, id, e);
      FieldsRead(inputs[k].fields);
      FieldsRead(ToolOf(After(inputs[..k]), id));
      if id in After(inputs[..k + 1]) {
        FieldsRead(After(inputs[..k + 1])[id]);
      }
    }
    hide After, Noted, IdOf, StatusOf, Word, EventOf, Names, HasStatus;
  }

  /** A report means exactly that a tool's status has become the event's word. */
  lemma NotedReport(tools: map<string, Tool>, update: Tool, id: string, e: ToolEvent)
    ensures var (after, report) := Noted(tools, update);
            report == Some(Report(id, e))
            <==> IdOf(update) == Some(id) && id in after
                 && StatusOf(after[id]) == Some(Word(e)) && StatusOf(ToolOf(tools, id)) != Some(Word(e))
  {
    if IdOf(update).Some? {
      var tool := ToolOf(tools, IdOf(update).value) + update;
      EventWord(StatusOf(tool).GetOr("pending"), e);
    }
    EventWord("pending", e);
    hide IdOf, Word, EventOf, StatusOf;
  }

  /** The update names a tool: by a text of 1 to 256 bytes without NUL. */
  predicate Names(update: Tool, id: string) {
    "toolCallId" in update && update["toolCallId"] == Text(id) && 1 <= |id| <= 256 && '\0' !in id
  }

  predicate HasStatus(tool: Tool, word: string) {
    "status" in tool && tool["status"] == Text(word)
  }

  lemma FieldsRead(update: Tool)
    ensures forall id :: IdOf(update) == Some(id) <==> Names(update, id)
    ensures forall word :: StatusOf(update) == Some(word) <==> HasStatus(update, word)
  {
  }

  /** The tool has the status now and had another before, or none. */
  predicate Becomes(before: Tool, after: Tool, word: string) {
    HasStatus(after, word) && !HasStatus(before, word)
  }

  /** An update that names a tool kept already, or a new one while fewer than 4096 are kept, overrides that
      tool's fields and reports that it started, completed or failed exactly when its status becomes that;
      any other update changes and reports nothing. */
  lemma UpdateMeans(tools: map<string, Tool>, update: Tool, id: string)
    ensures var (after, report) := Noted(tools, update);
            if Names(update, id) && (id in tools || |tools| < 4_096) then
              var tool := ToolOf(tools, id) + update;
              && after == tools[id := tool]
              && (report == Some(Report(id, PreToolUse)) <==> Becomes(ToolOf(tools, id), tool, "in_progress"))
              && (report == Some(Report(id, PostToolUse)) <==> Becomes(ToolOf(tools, id), tool, "completed"))
              && (report == Some(Report(id, PostToolUseFailure)) <==> Becomes(ToolOf(tools, id), tool, "failed"))
              && (report.Some? ==> report.value.id == id)
            else (Names(update, id) || forall named :: !Names(update, named)) ==> after == tools && report == None
  {
    FieldsRead(update);
    if Names(update, id) {
      NotedReport(tools, update, id, PreToolUse);
      NotedReport(tools, update, id, PostToolUse);
      NotedReport(tools, update, id, PostToolUseFailure);
      FieldsRead(ToolOf(tools, id) + update);
      FieldsRead(ToolOf(tools, id));
    }
    hide IdOf, StatusOf, EventOf, HasStatus, Names;
  }

  /** Input `j` sends tool `id` another status than `e`'s, or begins a turn. */
  predicate Departs(i: Input, id: string, e: ToolEvent) {
    i.NewTurn? || (Sends(i, id, STATUS) && i.fields[STATUS].AsText() != Some(Word(e)))
  }

  lemma DepartStep(tools: map<string, Tool>, i: Input, id: string, e: ToolEvent)
    requires id in tools && StatusOf(tools[id]) == Some(Word(e)) && !Departs(i, id, e)
    ensures id in Do(tools, i) && StatusOf(Do(tools, i)[id]) == Some(Word(e))
  {
    hide IdOf, Word, EventOf;
  }

  lemma {:induction false} StatusStands(inputs: seq<Input>, m: nat, n: nat, id: string, e: ToolEvent)
    requires m <= n <= |inputs| && id in After(inputs[..m]) && StatusOf(After(inputs[..m])[id]) == Some(Word(e))
    requires forall j :: m <= j < n ==> !Departs(inputs[j], id, e)
    ensures id in After(inputs[..n]) && StatusOf(After(inputs[..n])[id]) == Some(Word(e))
    decreases n
  {
    if m < n {
      StatusStands(inputs, m, n - 1, id, e);
      AfterOneMore(inputs, n - 1);
      hide After, StatusOf;
      DepartStep(After(inputs[..n - 1]), inputs[n - 1], id, e);
    }
  }

  /** The same event of one tool is never reported twice, unless the tool was sent another status
      or a new turn began in between. */
  lemma NoRepeatedReport(inputs: seq<Input>, i: nat, k: nat, id: string, e: ToolEvent)
    requires i < k < |inputs| && ReportAt(inputs, i) == Some(Report(id, e)) == ReportAt(inputs, k)
    ensures exists j :: i < j < k && Departs(inputs[j], id, e)
  {
    ReportMeans(inputs, i, id, e);
    ReportMeans(inputs, k, id, e);
    hide After, ReportAt, StatusOf, Departs;
    if forall j :: i + 1 <= j < k ==> !Departs(inputs[j], id, e) {
      StatusStands(inputs, i + 1, k, id, e);
      assert false;
    }
  }
}
