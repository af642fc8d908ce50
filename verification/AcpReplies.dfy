/** Interactions an ACP agent asks for and the replies that go back
    (`Observer::interaction` and `ReplyRoute` of `crates/providers/src/acp.rs`). Frames are
    taken after `normalize_frame`. */
module AcpReplies {
  import opened Options
  import opened Decimals
  import opened JsonValues
  import opened Replies

  datatype Provider = Kimi | Grok | Other

  /** A frame from the agent; `rpcMethod` is its method, when that is a string. */
  datatype Frame = Frame(id: Option<Json>, rpcMethod: Option<string>, params: Option<Json>)

  datatype Kind = PermissionKind | QuestionKind | ElicitationKind

  /** How an answer finds its way back: the option for each decision, the option for each
      label, or the question for each generated id. */
  datatype Route =
    | Permission(allow: Option<string>, deny: Option<string>)
    | Choice(options: seq<(string, string)>)
    | GrokQuestion(mapping: seq<(string, string)>)
    | GrokPlan
    | GrokElicitation
    | Elicitation

  datatype Interaction = Interaction(rpcId: Json, kind: Kind, approvable: bool, route: Route)

  // ----- Reading a frame -----

  predicate WellFormed(s: string, limit: nat) {
    s != "" && |s| <= limit && '\0' !in s
  }

  function Bounded(v: Json, limit: nat): Option<string> {
    if v.Text? && WellFormed(v.s, limit) then Some(v.s) else None
  }

  /** The questions' texts under generated ids; none if a text is malformed or repeated. */
  function MapQuestions(source: seq<Json>): Option<seq<(string, string)>> {
    if source == [] then Some([])
    else
      var n := |source| - 1;
      var mapping :- MapQuestions(source[..n]);
      var text :- Bounded(source[n].At("question"), 2000);
      if HasText(mapping, text) then None else Some(mapping + [(QuestionId(n), text)])
  }

  predicate HasText(mapping: seq<(string, string)>, text: string) {
    exists i :: 0 <= i < |mapping| && mapping[i].1 == text
  }

  function QuestionId(index: nat): string {
    "q" + ToDecimal(index)
  }

  method CollectQuestions(source: seq<Json>) returns (mapping: Option<seq<(string, string)>>)
    ensures mapping == MapQuestions(source)
  {
    var built: seq<(string, string)> := [];
    for index := 0 to |source|
      invariant MapQuestions(source[..index]) == Some(built)
    {
      assert source[..index + 1][..index] == source[..index];
      var text := Bounded(source[index].At("question"), 2000);
      if text.None? || HasText(built, text.value) {
        NoMappingLater(source, index + 1);
        return None;
      }
      built := built + [(QuestionId(index), text.value)];
    }
    assert source[..|source|] == source;
    return Some(built);
  }

  lemma {:induction false} NoMappingLater(source: seq<Json>, n: nat)
    requires n <= |source| && MapQuestions(source[..n]).None?
    ensures MapQuestions(source).None?
    decreases |source|
  {
    if n == |source| {
      assert source[..n] == source;
    } else {
      var front := source[..|source| - 1];
      assert front[..n] == source[..n];
      NoMappingLater(front, n);
    }
  }

  datatype PermissionOption = PermissionOption(kind: string, id: string, name: string)

  function ParseOption(o: Json): Option<PermissionOption> {
    var kind :- Bounded(o.At("kind"), 64);
    var id :- Bounded(o.At("optionId"), 256);
    var name :- Bounded(o.At("name"), 500);
    Some(PermissionOption(kind, id, name))
  }

  function ParseOptions(items: seq<Json>): (r: Option<seq<PermissionOption>>)
    ensures r.Some? ==> |r.value| == |items|
  {
    if items == [] then Some([])
    else
      var first :- ParseOption(items[0]);
      var rest :- ParseOptions(items[1..]);
      Some([first] + rest)
  }

  const ALLOW := "allow_once"
  const REJECT := "reject_once"

  function OfKind(options: seq<PermissionOption>, kind: string): seq<PermissionOption> {
    if options == [] then []
    else (if options[0].kind == kind then [options[0]] else []) + OfKind(options[1..], kind)
  }

  function Choices(options: seq<PermissionOption>): seq<(string, string)> {
    if options == [] then []
    else
      var o := options[0];
      (if o.kind == ALLOW || o.kind == REJECT then [(o.name, o.id)] else []) + Choices(options[1..])
  }

  function FirstId(options: seq<PermissionOption>): Option<string> {
    if options == [] then None else Some(options[0].id)
  }

  function PermissionRoute(options: seq<PermissionOption>): Route {
    if |OfKind(options, ALLOW)| > 1 then Choice(Choices(options))
    else Permission(FirstId(OfKind(options, ALLOW)), FirstId(OfKind(options, REJECT)))
  }

  function RouteOf(provider: Provider, rpcMethod: string, params: Json): Option<(Kind, Route)> {
    if rpcMethod == "_x.ai/exit_plan_mode" && provider == Grok then
      var _ :- Bounded(params.At("planContent"), 65536);
      Some((PermissionKind, GrokPlan))
    else if rpcMethod == "_x.ai/mcp/elicit" && provider == Grok then
      if params.At("mode") != Text("form") then None
      else
        var _ :- params.Get("requestedSchema");
        Some((ElicitationKind, GrokElicitation))
    else if rpcMethod == "_x.ai/ask_user_question" && provider == Grok then
      var questions := params.At("questions");
      if !(questions.List? && 1 <= |questions.items| <= 20) then None
      else
        var mapping :- MapQuestions(questions.items);
        Some((QuestionKind, GrokQuestion(mapping)))
    else if rpcMethod == "session/request_permission" then
      if !params.At("options").List? then None
      else
        var options :- ParseOptions(params.At("options").items);
        if !(1 <= |options| <= 50) then None
        else
          var route := PermissionRoute(options);
          Some((if route.Choice? then QuestionKind else PermissionKind, route))
    else if rpcMethod == "elicitation/create" then
      if params.At("mode").AsText().GetOr("form") != "form" then None
      else
        var _ :- params.Get("requestedSchema");
        Some((ElicitationKind, Elicitation))
    else None
  }

  /** `Observer::interaction`. */
  function Interact(provider: Provider, session: string, frame: Frame, at: nat): Option<Interaction> {
    var id :- frame.id;
    if !(id.Number? || Bounded(id, 256).Some?) then None
    else
      var params :- frame.params;
      if params.At("sessionId") != Text(session) then None
      else
        var rpcMethod :- frame.rpcMethod;
        var (kind, route) :- RouteOf(provider, rpcMethod, params);
        if provider == Other || session == "" || |session| > 256 || SaturatingAdd(at, 3_600_000) <= at then None
        else Some(Interaction(id, kind, kind == PermissionKind && !(route.Permission? && route.allow.None?), route))
  }

  // ----- Replying -----

  datatype Payload =
    | AgentQuestion(answers: map<string, seq<string>>)
    | AgentElicitation(action: string, content: Option<Json>)
    | OtherPayload

  /** What the runtime decided. */
  datatype Response = Response(action: ReplyAction, payload: Option<Payload>)

  /** The result sent to the agent. */
  datatype Reply =
    | Outcome(word: string)
    | OutcomeWith(word: string, filled: Json)
    | Accepted(answers: map<string, seq<string>>)
    | Selected(optionId: string)
    | NothingSelected
    | ElicitationAction(action: string, content: Option<Json>)

  predicate AllAnswered(mapping: seq<(string, string)>, answers: map<string, seq<string>>) {
    forall i :: 0 <= i < |mapping| ==> mapping[i].0 in answers
  }

  function MappedAnswers(mapping: seq<(string, string)>, answers: map<string, seq<string>>): map<string, seq<string>>
    requires AllAnswered(mapping, answers)
  {
    if mapping == [] then map[]
    else
      var n := |mapping| - 1;
      MappedAnswers(mapping[..n], answers)[mapping[n].1 := answers[mapping[n].0]]
  }

  function FindLabel(options: seq<(string, string)>, caption: string): Option<string> {
    if options == [] then None
    else if options[0].0 == caption then Some(options[0].1)
    else FindLabel(options[1..], caption)
  }

  function SelectedOr(id: Option<string>): Reply {
    if id.Some? then Selected(id.value) else NothingSelected
  }

  /** The answers a response carries. */
  function AnswersIn(response: Option<Response>): Option<map<string, seq<string>>> {
    if response.Some? && response.value.payload.Some? && response.value.payload.value.AgentQuestion?
    then Some(response.value.payload.value.answers) else None
  }

  function QuestionResult(mapping: seq<(string, string)>, answers: map<string, seq<string>>): Reply {
    if |answers| == |mapping| && AllAnswered(mapping, answers) then Accepted(MappedAnswers(mapping, answers))
    else Outcome("cancelled")
  }

  function ChosenOption(options: seq<(string, string)>, answers: map<string, seq<string>>): Option<string> {
    if "choice" in answers && |answers["choice"]| == 1 then FindLabel(options, answers["choice"][0]) else None
  }

  /** `ReplyRoute::response`. */
  function Respond(route: Route, response: Option<Response>): Reply {
    var payload := if response.Some? then response.value.payload else None;
    match route
    case GrokPlan => Outcome(if response.Some? && response.value.action == Allow then "approved" else "cancelled")
    case GrokElicitation =>
      if payload.Some? && payload.value.AgentElicitation? then
        var action := payload.value.action;
        if action == "accept" then OutcomeWith(action, payload.value.content.GetOr(Object(map[])))
        else if action == "decline" || action == "cancel" then Outcome(action)
        else Outcome("cancel")
      else Outcome("cancel")
    case GrokQuestion(mapping) =>
      var answers := AnswersIn(response);
      if answers.Some? then QuestionResult(mapping, answers.value) else Outcome("cancelled")
    case Permission(allow, deny) =>
      SelectedOr(if response.None? then None
                 else if response.value.action == Allow then allow
                 else if response.value.action == Deny then deny
                 else None)
    case Choice(options) =>
      var answers := AnswersIn(response);
      SelectedOr(if answers.Some? then ChosenOption(options, answers.value) else None)
    case Elicitation =>
      if payload.Some? && payload.value.AgentElicitation?
      then ElicitationAction(payload.value.action, payload.value.content)
      else ElicitationAction("cancel", None)
  }

  // ----- Questions -----

  /** `mapping` numbers the well-formed, distinct texts of `source`. */
  ghost predicate Numbers(mapping: seq<(string, string)>, source: seq<Json>) {
    && |mapping| == |source|
    && (forall i :: 0 <= i < |source| ==>
          mapping[i].0 == QuestionId(i) && Bounded(source[i].At("question"), 2000) == Some(mapping[i].1))
    && (forall i, j :: 0 <= i < j < |source| ==> mapping[i].1 != mapping[j].1)
  }

  ghost predicate Distinct(source: seq<Json>) {
    && (forall i :: 0 <= i < |source| ==> Bounded(source[i].At("question"), 2000).Some?)
    && (forall i, j :: 0 <= i < j < |source| ==> source[i].At("question") != source[j].At("question"))
  }

  /** Questions map exactly when their texts are well formed and all different, and then in
      order under the ids q0, q1, ... */
  lemma {:induction false} MappingNumbers(source: seq<Json>)
    ensures MapQuestions(source).Some? <==> Distinct(source)
    ensures MapQuestions(source).Some? ==> Numbers(MapQuestions(source).value, source)
  {
    hide QuestionId, Bounded, HasText, Distinct, Numbers;
    if source == [] {
      NoQuestions();
    } else {
      var n := |source| - 1;
      var front := source[..n];
      MappingNumbers(front);
      if Distinct(source) {
        DistinctFront(source, n);
      }
      if MapQuestions(front).Some? {
        OneMoreQuestion(source, n, MapQuestions(front).value);
      }
    }
  }

  lemma NoQuestions()
    ensures Distinct([]) && Numbers([], [])
  {
  }

  lemma DistinctFront(source: seq<Json>, n: nat)
    requires n + 1 == |source| && Distinct(source)
    ensures Distinct(source[..n]) && Bounded(source[n].At("question"), 2000).Some?
  {
    hide Bounded;
  }

  lemma OneMoreQuestion(source: seq<Json>, n: nat, mapping: seq<(string, string)>)
    requires n + 1 == |source| && Numbers(mapping, source[..n]) && Distinct(source[..n])
    ensures var text := Bounded(source[n].At("question"), 2000);
            && (Distinct(source) <==> text.Some? && !HasText(mapping, text.value))
            && (Distinct(source) ==> Numbers(mapping + [(QuestionId(n), text.value)], source))
  {
    var text := Bounded(source[n].At("question"), 2000);
    BoundedIsText(source);
    hide QuestionId, Bounded;
    var front := source[..n];
    assert forall i :: 0 <= i < n ==> front[i] == source[i];
    if text.Some? {
      assert forall i :: 0 <= i < n ==>
               (mapping[i].1 == text.value <==> front[i].At("question") == source[n].At("question"));
    }
  }

  lemma BoundedIsText(source: seq<Json>)
    ensures forall i :: 0 <= i < |source| && Bounded(source[i].At("question"), 2000).Some? ==>
              source[i].At("question") == Text(Bounded(source[i].At("question"), 2000).value)
  {
  }

  function QuestionIds(n: nat): set<string> {
    set i | 0 <= i < n :: QuestionId(i)
  }

  lemma QuestionIdInjective(i: nat, j: nat)
    requires QuestionId(i) == QuestionId(j)
    ensures i == j
  {
    assert QuestionId(i)[1..] == ToDecimal(i) && QuestionId(j)[1..] == ToDecimal(j);
    ToDecimalInjective(i, j);
  }

  lemma QuestionIdIsNew(n: nat)
    ensures QuestionId(n) !in QuestionIds(n)
  {
    if QuestionId(n) in QuestionIds(n) {
      var i :| 0 <= i < n && QuestionId(i) == QuestionId(n);
      QuestionIdInjective(i, n);
    }
  }

  lemma {:induction false} QuestionIdCount(n: nat)
    ensures |QuestionIds(n)| == n
  {
    if n > 0 {
      QuestionIdCount(n - 1);
      QuestionIdIsNew(n - 1);
      hide QuestionId;
      assert QuestionIds(n) == QuestionIds(n - 1) + {QuestionId(n - 1)};
    }
  }

  lemma SubsetOfSameSize<T>(a: set<T>, b: set<T>)
    requires a <= b && |a| == |b|
    ensures a == b
  {
    assert b == a + (b - a);
    assert |b| == |a| + |b - a|;
  }

  /** The test on counts and members is a test for exactly the generated ids. */
  lemma AnswersMatchIds(mapping: seq<(string, string)>, source: seq<Json>, answers: map<string, seq<string>>)
    requires Numbers(mapping, source)
    ensures |answers| == |mapping| && AllAnswered(mapping, answers) <==> answers.Keys == QuestionIds(|source|)
  {
    hide QuestionId, Bounded;
    QuestionIdCount(|source|);
    assert |answers| == |answers.Keys|;
    if |answers| == |mapping| && AllAnswered(mapping, answers) {
      assert QuestionIds(|source|) <= answers.Keys;
      SubsetOfSameSize(QuestionIds(|source|), answers.Keys);
    }
  }

  ghost predicate KeyedByText(answered: map<string, seq<string>>, mapping: seq<(string, string)>,
                              answers: map<string, seq<string>>)
  {
    && (forall t :: t in answered <==> HasText(mapping, t))
    && (forall i :: 0 <= i < |mapping| ==>
          mapping[i].0 in answers && mapping[i].1 in answered && answered[mapping[i].1] == answers[mapping[i].0])
  }

  lemma {:induction false} MappedByText(mapping: seq<(string, string)>, answers: map<string, seq<string>>)
    requires AllAnswered(mapping, answers)
    requires forall i, j :: 0 <= i < j < |mapping| ==> mapping[i].1 != mapping[j].1
    ensures KeyedByText(MappedAnswers(mapping, answers), mapping, answers)
  {
    if mapping != [] {
      var n := |mapping| - 1;
      MappedByText(mapping[..n], answers);
      var before := MappedAnswers(mapping[..n], answers);
      assert MappedAnswers(mapping, answers) == before[mapping[n].1 := answers[mapping[n].0]];
      hide MappedAnswers, KeyedByText;
      KeyedOneMore(before, mapping, n, answers);
    }
  }

  lemma KeyedOneMore(before: map<string, seq<string>>, mapping: seq<(string, string)>, n: nat,
                     answers: map<string, seq<string>>)
    requires n + 1 == |mapping| && AllAnswered(mapping, answers) && KeyedByText(before, mapping[..n], answers)
    requires forall i :: 0 <= i < n ==> mapping[i].1 != mapping[n].1
    ensures KeyedByText(before[mapping[n].1 := answers[mapping[n].0]], mapping, answers)
  {
    var front, after := mapping[..n], before[mapping[n].1 := answers[mapping[n].0]];
    HasTextLast(mapping, n);
    assert forall t :: t in after <==> HasText(mapping, t);
    hide HasText;
    forall i | 0 <= i < n
      ensures mapping[i].1 in after && after[mapping[i].1] == answers[mapping[i].0]
    {
      assert front[i] == mapping[i];
    }
  }

  lemma HasTextLast(mapping: seq<(string, string)>, n: nat)
    requires n + 1 == |mapping|
    ensures forall t :: HasText(mapping, t) <==> HasText(mapping[..n], t) || t == mapping[n].1
  {
    forall t
      ensures HasText(mapping, t) <==> HasText(mapping[..n], t) || t == mapping[n].1
    {
      if i :| 0 <= i < n && mapping[..n][i].1 == t {
        assert mapping[i].1 == t;
      }
      if i :| 0 <= i < n && mapping[i].1 == t {
        assert mapping[..n][i].1 == t;
      }
    }
  }

  /** A question is accepted exactly when it answers the generated ids and no others; then
      every question's text carries the answer given under its id, and there is nothing else.
      Anything but that cancels. */
  lemma QuestionReply(source: seq<Json>, response: Option<Response>)
    requires MapQuestions(source).Some?
    ensures var mapping, answers := MapQuestions(source).value, AnswersIn(response);
            var reply := Respond(GrokQuestion(mapping), response);
            && (reply.Accepted? <==> answers.Some? && answers.value.Keys == QuestionIds(|source|))
            && (reply.Accepted? ==> KeyedByText(reply.answers, mapping, answers.value))
            && (!reply.Accepted? ==> reply == Outcome("cancelled"))
  {
    MappingNumbers(source);
    hide MapQuestions, AnswersIn, QuestionIds, QuestionResult, Numbers, KeyedByText;
    if AnswersIn(response).Some? {
      QuestionResultMeans(MapQuestions(source).value, source, AnswersIn(response).value);
    }
  }

  lemma QuestionResultMeans(mapping: seq<(string, string)>, source: seq<Json>, answers: map<string, seq<string>>)
    requires Numbers(mapping, source)
    ensures var reply := QuestionResult(mapping, answers);
            && (reply.Accepted? <==> answers.Keys == QuestionIds(|source|))
            && (reply.Accepted? ==> KeyedByText(reply.answers, mapping, answers))
            && (!reply.Accepted? ==> reply == Outcome("cancelled"))
  {
    AnswersMatchIds(mapping, source, answers);
    assert forall i, j :: 0 <= i < j < |mapping| ==> mapping[i].1 != mapping[j].1;
    hide QuestionIds, QuestionId, Bounded, MappedAnswers, KeyedByText, AllAnswered, Numbers;
    if answers.Keys == QuestionIds(|source|) {
      MappedByText(mapping, answers);
    }
  }

  // ----- Permissions -----

  predicate Offers(o: PermissionOption) {
    o.kind == ALLOW || o.kind == REJECT
  }

  /** `options[k]` is the first of its kind. */
  ghost predicate FirstOf(options: seq<PermissionOption>, k: int, kind: string) {
    0 <= k < |options| && options[k].kind == kind && forall i :: 0 <= i < k ==> options[i].kind != kind
  }

  /** `options[k]` is the first one offered under its label. */
  ghost predicate FirstNamed(options: seq<PermissionOption>, k: int, caption: string) {
    && 0 <= k < |options| && Offers(options[k]) && options[k].name == caption
    && forall i :: 0 <= i < k && Offers(options[i]) ==> options[i].name != caption
  }

  lemma {:induction false} FirstIdMeans(options: seq<PermissionOption>, kind: string, id: string)
    ensures FirstId(OfKind(options, kind)) == Some(id) <==> exists k :: FirstOf(options, k, kind) && options[k].id == id
  {
    if options != [] {
      var rest := options[1..];
      FirstIdMeans(rest, kind, id);
      if options[0].kind == kind {
        assert FirstOf(options, 0, kind);
      } else {
        if k :| FirstOf(rest, k, kind) && rest[k].id == id {
          assert FirstOf(options, k + 1, kind);
        }
        if k :| FirstOf(options, k, kind) && options[k].id == id {
          assert options[0].kind != kind;
          assert forall i :: 0 <= i < k - 1 ==> rest[i] == options[i + 1];
          assert FirstOf(rest, k - 1, kind) && rest[k - 1].id == id;
        }
      }
    }
  }

  lemma {:induction false} FindLabelMeans(options: seq<PermissionOption>, caption: string, id: string)
    ensures FindLabel(Choices(options), caption) == Some(id)
            <==> exists k :: FirstNamed(options, k, caption) && options[k].id == id
  {
    if options != [] {
      var rest := options[1..];
      FindLabelMeans(rest, caption, id);
      if Offers(options[0]) && options[0].name == caption {
        assert FirstNamed(options, 0, caption);
      } else {
        assert FindLabel(Choices(options), caption) == FindLabel(Choices(rest), caption) by {
          var head := if Offers(options[0]) then [(options[0].name, options[0].id)] else [];
          assert Choices(options) == head + Choices(rest);
          assert Choices(options)[|head|..] == Choices(rest);
        }
        if k :| FirstNamed(rest, k, caption) && rest[k].id == id {
          assert FirstNamed(options, k + 1, caption);
        }
        if k :| FirstNamed(options, k, caption) && options[k].id == id {
          assert forall i :: 0 <= i < k - 1 ==> rest[i] == options[i + 1];
          assert FirstNamed(rest, k - 1, caption) && rest[k - 1].id == id;
        }
      }
    }
  }

  /** The label a reply chooses. */
  predicate Chooses(response: Option<Response>, caption: string) {
    var answers := AnswersIn(response);
    answers.Some? && "choice" in answers.value && answers.value["choice"] == [caption]
  }

  /** A permission reply selects an option exactly when it is the first `allow_once` of an
      allowing reply or the first `reject_once` of a denying one; with several ways to allow,
      exactly when it is the first one offered under the label chosen. */
  lemma PermissionReply(options: seq<PermissionOption>, response: Option<Response>, id: string)
    ensures Respond(PermissionRoute(options), response) == Selected(id)
            <==> if |OfKind(options, ALLOW)| > 1
                 then exists k, caption ::
                        Chooses(response, caption) && FirstNamed(options, k, caption) && options[k].id == id
                 else response.Some? && (response.value.action == Allow || response.value.action == Deny)
                      && exists k :: FirstOf(options, k, if response.value.action == Allow then ALLOW else REJECT)
                                     && options[k].id == id
  {
    if |OfKind(options, ALLOW)| > 1 {
      var answers := AnswersIn(response);
      if answers.Some? && "choice" in answers.value && |answers.value["choice"]| == 1 {
        var caption := answers.value["choice"][0];
        assert Chooses(response, caption);
        FindLabelMeans(options, caption, id);
      }
    } else {
      FirstIdMeans(options, ALLOW, id);
      FirstIdMeans(options, REJECT, id);
    }
  }

  /** The options some reply can select: with several ways to allow, each one offered that is the
      first under its label; otherwise the first way to allow and the first to reject. */
  ghost predicate Reachable(options: seq<PermissionOption>, k: int) {
    0 <= k < |options|
    && if |OfKind(options, ALLOW)| > 1 then FirstNamed(options, k, options[k].name)
       else FirstOf(options, k, ALLOW) || FirstOf(options, k, REJECT)
  }

  /** An option id can be selected by some response exactly when a reachable option carries it. */
  lemma SelectableIsReachable(options: seq<PermissionOption>, id: string)
    ensures (exists response :: Respond(PermissionRoute(options), response) == Selected(id))
            <==> exists k :: Reachable(options, k) && options[k].id == id
  {
    if response :| Respond(PermissionRoute(options), response) == Selected(id) {
      PermissionReply(options, response, id);
    }
    if k :| Reachable(options, k) && options[k].id == id {
      var response := ResponseFor(options[k]);
      hide OfKind, PermissionRoute;
      assert |OfKind(options, ALLOW)| > 1 ==> Chooses(response, options[k].name);
      PermissionReply(options, response, id);
      assert Respond(PermissionRoute(options), response) == Selected(id);
    }
  }

  /** The response that asks for an option, either way. */
  function ResponseFor(o: PermissionOption): Option<Response> {
    Some(Response(if o.kind == ALLOW then Allow else Deny, Some(AgentQuestion(map["choice" := [o.name]]))))
  }

  /** Of two ways to allow under one label the second cannot be chosen. */
  lemma SameLabelHides()
    ensures var options := [PermissionOption(ALLOW, "once", "Allow"), PermissionOption(ALLOW, "here", "Allow")];
            && (exists response :: Respond(PermissionRoute(options), response) == Selected("once"))
            && forall response :: Respond(PermissionRoute(options), response) != Selected("here")
  {
    SecondIsHidden(PermissionOption(ALLOW, "once", "Allow"), PermissionOption(ALLOW, "here", "Allow"));
  }

  lemma SecondIsHidden(first: PermissionOption, second: PermissionOption)
    requires first.kind == second.kind == ALLOW && first.name == second.name && first.id != second.id
    ensures exists response :: Respond(PermissionRoute([first, second]), response) == Selected(first.id)
    ensures forall response :: Respond(PermissionRoute([first, second]), response) != Selected(second.id)
  {
    var options := [first, second];
    assert options[0] == first && options[1] == second;
    assert options[1..] == [second] && OfKind([second], ALLOW) == [second];
    assert OfKind(options, ALLOW) == [first] + [second];
    assert Reachable(options, 0) && !Reachable(options, 1);
    SelectableIsReachable(options, first.id);
    SelectableIsReachable(options, second.id);
  }

  // ----- Consent -----

  predicate Cancels(reply: Reply) {
    reply == Outcome("cancelled") || reply == Outcome("cancel") || reply == NothingSelected
    || reply == ElicitationAction("cancel", None)
  }

  predicate Elicits(response: Option<Response>, action: string) {
    response.Some? && response.value.payload.Some? && response.value.payload.value.AgentElicitation?
    && response.value.payload.value.action == action
  }

  predicate ElicitsAny(response: Option<Response>) {
    response.Some? && response.value.payload.Some? && response.value.payload.value.AgentElicitation?
  }

  /** Without a response every route cancels; a plan is approved exactly by an allowing
      response; a Grok form is filled exactly when its elicitation is accepted, with its content or
      nothing, declined exactly when declined, and cancelled otherwise; and any other form carries
      whatever action and content the elicitation has, and cancels without one. */
  lemma ConsentIsNeeded(route: Route, response: Option<Response>)
    ensures response.None? ==> Cancels(Respond(route, response))
    ensures Respond(route, response) == Outcome("approved")
            <==> route.GrokPlan? && response.Some? && response.value.action == Allow
    ensures Respond(route, response).OutcomeWith? <==> route.GrokElicitation? && Elicits(response, "accept")
    ensures Respond(route, response) == Outcome("decline") <==> route.GrokElicitation? && Elicits(response, "decline")
    ensures route.GrokElicitation? && Elicits(response, "accept") ==>
              Respond(route, response)
              == OutcomeWith("accept", match response.value.payload.value.content
                                       case Some(content) => content
                                       case None => Object(map[]))
    ensures route.GrokElicitation? && !Elicits(response, "accept") && !Elicits(response, "decline") ==>
              Respond(route, response) == Outcome("cancel")
    ensures route.GrokPlan? ==> Respond(route, response) in {Outcome("approved"), Outcome("cancelled")}
    ensures forall action, content ::
              Respond(route, response) == ElicitationAction(action, content)
              <==> route.Elicitation?
                   && if Elicits(response, action) then content == response.value.payload.value.content
                      else action == "cancel" && content == None && !ElicitsAny(response)
  {
    hide MappedAnswers, FindLabel, AllAnswered;
    var words := ["approved", "cancelled", "cancel", "decline"];
    assert words[0][0] != words[1][0] && words[0][0] != words[2][0] && words[0][0] != words[3][0];
    assert words[3][0] != words[1][0] && words[3][0] != words[2][0];
  }

  // ----- Whole frames -----

  predicate OnceKind(o: Json) {
    var kind := o.At("kind");
    kind.Text? && (kind.s == ALLOW || kind.s == REJECT)
  }

  /** `id` is offered in the frame's options, to allow or to reject once. */
  ghost predicate OfferedIn(frame: Frame, id: string) {
    && frame.params.Some? && frame.params.value.At("options").List?
    && exists o :: o in frame.params.value.At("options").items && o.At("optionId") == Text(id) && OnceKind(o)
  }

  /** The frame's questions have all these texts. */
  ghost predicate AskedIn(frame: Frame, texts: set<string>) {
    && frame.params.Some? && frame.params.value.At("questions").List?
    && forall t :: t in texts ==>
         exists q :: q in frame.params.value.At("questions").items && q.At("question") == Text(t)
  }

  lemma {:induction false} ParsedFrom(items: seq<Json>, k: nat)
    requires ParseOptions(items).Some? && k < |items|
    ensures ParseOption(items[k]) == Some(ParseOptions(items).value[k])
  {
    if k > 0 {
      ParsedFrom(items[1..], k - 1);
    }
  }

  /** Whatever the runtime answers, a reply only selects an option of the frame it replies to,
      only accepts the frame's own questions, and goes to the frame's own id. */
  lemma ReplyStaysInFrame(provider: Provider, session: string, frame: Frame, at: nat, response: Option<Response>)
    requires Interact(provider, session, frame, at).Some?
    ensures var interaction := Interact(provider, session, frame, at).value;
            var reply := Respond(interaction.route, response);
            && frame.id == Some(interaction.rpcId) && frame.params.value.At("sessionId") == Text(session)
            && (interaction.route.GrokQuestion? || interaction.route.GrokPlan? || interaction.route.GrokElicitation? ==>
                  provider == Grok)
            && (reply.Selected? ==> OfferedIn(frame, reply.optionId))
            && (reply.Accepted? ==> AskedIn(frame, reply.answers.Keys))
  {
    var interaction, params := Interact(provider, session, frame, at).value, frame.params.value;
    var reply := Respond(interaction.route, response);
    RouteComesFromFrame(provider, frame.rpcMethod.value, params);
    hide Interact, RouteOf, MapQuestions, ParseOptions, PermissionRoute;
    if reply.Selected? {
      SelectedIsOffered(frame, params.At("options").items, response);
    } else if reply.Accepted? {
      AcceptedAsks(params.At("questions").items, response);
    }
  }

  lemma RouteComesFromFrame(provider: Provider, rpcMethod: string, params: Json)
    requires RouteOf(provider, rpcMethod, params).Some?
    ensures var route := RouteOf(provider, rpcMethod, params).value.1;
            && (route.GrokQuestion? ==> params.At("questions").List?
                                        && MapQuestions(params.At("questions").items) == Some(route.mapping))
            && (route.Permission? || route.Choice? ==>
                  && params.At("options").List? && ParseOptions(params.At("options").items).Some?
                  && route == PermissionRoute(ParseOptions(params.At("options").items).value))
  {
    hide MapQuestions, ParseOptions, OfKind, Choices;
  }

  lemma AcceptedAsks(source: seq<Json>, response: Option<Response>)
    requires MapQuestions(source).Some?
    ensures var reply := Respond(GrokQuestion(MapQuestions(source).value), response);
            reply.Accepted? ==>
              forall t :: t in reply.answers ==> exists q :: q in source && q.At("question") == Text(t)
  {
    QuestionReply(source, response);
    MappingNumbers(source);
    BoundedIsText(source);
    var mapping := MapQuestions(source).value;
    var reply := Respond(GrokQuestion(mapping), response);
    hide MapQuestions, Respond, QuestionId, Bounded;
    if reply.Accepted? {
      forall t | t in reply.answers
        ensures exists q :: q in source && q.At("question") == Text(t)
      {
        var i :| 0 <= i < |mapping| && mapping[i].1 == t;
        assert source[i] in source;
      }
    }
  }

  lemma SelectedIsOffered(frame: Frame, items: seq<Json>, response: Option<Response>)
    requires frame.params.Some? && frame.params.value.At("options") == List(items) && ParseOptions(items).Some?
    ensures var reply := Respond(PermissionRoute(ParseOptions(items).value), response);
            reply.Selected? ==> OfferedIn(frame, reply.optionId)
  {
    var options := ParseOptions(items).value;
    var reply := Respond(PermissionRoute(options), response);
    if reply.Selected? {
      PermissionReply(options, response, reply.optionId);
      hide PermissionRoute, Respond, OfKind, Choices;
      var k :| 0 <= k < |options| && Offers(options[k]) && options[k].id == reply.optionId;
      ParsedFrom(items, k);
      ParsedTexts(items[k]);
      var o := items[k];
      assert o.At("optionId") == Text(reply.optionId) && OnceKind(o);
      assert o in frame.params.value.At("options").items;
    }
  }

  lemma ParsedTexts(o: Json)
    requires ParseOption(o).Some?
    ensures Offers(ParseOption(o).value) ==> OnceKind(o)
    ensures o.At("optionId") == Text(ParseOption(o).value.id)
  {
  }
}
