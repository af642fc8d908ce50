/** Which frames of an ACP agent become an interaction (`Observer::interaction` of
    `crates/providers/src/acp.rs`), told from the frame's own JSON, and of what kind. */
module AcpFrames {
  import opened Options
  import opened JsonValues
  import opened Replies
  import opened AcpReplies

  // ----- The frame's JSON -----

  /** A text of 1 to `limit` bytes without NUL. */
  predicate TextUpTo(v: Json, limit: nat) {
    v.Text? && 1 <= |v.s| <= limit && '\0' !in v.s
  }

  predicate Carries(v: Json, key: string) {
    v.Object? && key in v.fields
  }

  /** An id, this session's own id, and a session the bridge takes, at a reading before the clock's last. */
  predicate Addressed(provider: Provider, session: string, frame: Frame, at: nat) {
    && frame.id.Some? && (frame.id.value.Number? || TextUpTo(frame.id.value, 256))
    && frame.params.Some? && Carries(frame.params.value, "sessionId")
    && frame.params.value.fields["sessionId"] == Text(session)
    && frame.rpcMethod.Some? && provider in {Kimi, Grok} && 1 <= |session| <= 256 && at < U64_MAX
  }

  predicate AsksPlan(provider: Provider, rpcMethod: string, params: Json) {
    provider == Grok && rpcMethod == "_x.ai/exit_plan_mode"
    && Carries(params, "planContent") && TextUpTo(params.fields["planContent"], 65_536)
  }

  predicate AsksGrokForm(provider: Provider, rpcMethod: string, params: Json) {
    provider == Grok && rpcMethod == "_x.ai/mcp/elicit"
    && Carries(params, "mode") && params.fields["mode"] == Text("form") && Carries(params, "requestedSchema")
  }

  /** One to twenty questions with texts, all different. */
  ghost predicate AsksQuestions(provider: Provider, rpcMethod: string, params: Json) {
    provider == Grok && rpcMethod == "_x.ai/ask_user_question"
    && Carries(params, "questions") && params.fields["questions"].List?
    && var items := params.fields["questions"].items;
       && 1 <= |items| <= 20
       && (forall i :: 0 <= i < |items| ==>
             Carries(items[i], "question") && TextUpTo(items[i].fields["question"], 2_000))
       && (forall i, j :: 0 <= i < j < |items| ==> items[i].fields["question"] != items[j].fields["question"])
  }

  /** An option with a kind, an id and a label. */
  predicate IsOption(o: Json) {
    && Carries(o, "kind") && TextUpTo(o.fields["kind"], 64)
    && Carries(o, "optionId") && TextUpTo(o.fields["optionId"], 256)
    && Carries(o, "name") && TextUpTo(o.fields["name"], 500)
  }

  /** One to fifty such options. */
  predicate AsksPermission(rpcMethod: string, params: Json) {
    rpcMethod == "session/request_permission"
    && Carries(params, "options") && params.fields["options"].List?
    && var items := params.fields["options"].items;
       1 <= |items| <= 50 && forall i :: 0 <= i < |items| ==> IsOption(items[i])
  }

  /** A form, which it is too where `mode` is no text. */
  predicate AsksForm(rpcMethod: string, params: Json) {
    rpcMethod == "elicitation/create"
    && (Carries(params, "mode") && params.fields["mode"].Text? ==> params.fields["mode"].s == "form")
    && Carries(params, "requestedSchema")
  }

  predicate IsOf(o: Json, kind: string) {
    Carries(o, "kind") && o.fields["kind"] == Text(kind)
  }

  /** There are two ways to allow once. */
  ghost predicate SeveralWays(items: seq<Json>) {
    exists i, j :: 0 <= i < j < |items| && IsOf(items[i], "allow_once") && IsOf(items[j], "allow_once")
  }

  ghost predicate SomeWay(items: seq<Json>) {
    exists i :: 0 <= i < |items| && IsOf(items[i], "allow_once")
  }

  // ----- Parsing -----

  lemma BoundedMeans(v: Json, limit: nat)
    ensures Bounded(v, limit).Some? <==> TextUpTo(v, limit)
    ensures TextUpTo(v, limit) ==> v == Text(Bounded(v, limit).value)
  {
  }

  lemma OptionMeans(o: Json)
    ensures ParseOption(o).Some? <==> IsOption(o)
    ensures IsOption(o) ==>
              ParseOption(o) == Some(PermissionOption(o.fields["kind"].s, o.fields["optionId"].s, o.fields["name"].s))
  {
    BoundedMeans(o.At("kind"), 64);
    BoundedMeans(o.At("optionId"), 256);
    BoundedMeans(o.At("name"), 500);
    hide Bounded;
  }

  lemma {:induction false} OptionsMean(items: seq<Json>)
    ensures ParseOptions(items).Some? <==> forall i :: 0 <= i < |items| ==> IsOption(items[i])
    ensures ParseOptions(items).Some? ==>
              forall i :: 0 <= i < |items| ==> Some(ParseOptions(items).value[i]) == ParseOption(items[i])
  {
    hide ParseOption, IsOption;
    if items != [] {
      OptionMeans(items[0]);
      OptionsMean(items[1..]);
      assert forall i :: 1 <= i < |items| ==> items[i] == items[1..][i - 1];
      assert forall i :: 0 <= i < |items| - 1 ==> items[1..][i] == items[i + 1];
    }
  }

  lemma {:induction false} WaysCounted(options: seq<PermissionOption>)
    ensures |OfKind(options, "allow_once")| > 0 <==> exists i :: 0 <= i < |options| && options[i].kind == "allow_once"
    ensures |OfKind(options, "allow_once")| > 1
            <==> exists i, j :: 0 <= i < j < |options| && options[i].kind == options[j].kind == "allow_once"
  {
    if options != [] {
      var rest := options[1..];
      WaysCounted(rest);
      if i :| 0 <= i < |rest| && rest[i].kind == "allow_once" {
        assert options[i + 1].kind == "allow_once";
      }
      if i, j :| 0 <= i < j < |rest| && rest[i].kind == rest[j].kind == "allow_once" {
        assert options[i + 1].kind == options[j + 1].kind == "allow_once";
      }
      if i, j :| 0 <= i < j < |options| && options[i].kind == options[j].kind == "allow_once" {
        assert rest[j - 1].kind == "allow_once";
        assert i > 0 ==> rest[i - 1].kind == "allow_once";
      }
      if i :| 0 <= i < |options| && options[i].kind == "allow_once" {
        assert i > 0 ==> rest[i - 1].kind == "allow_once";
      }
    }
  }

  // ----- Which frames are taken -----

  ghost predicate Asks(provider: Provider, rpcMethod: string, params: Json) {
    || AsksPlan(provider, rpcMethod, params) || AsksGrokForm(provider, rpcMethod, params)
    || AsksQuestions(provider, rpcMethod, params) || AsksPermission(rpcMethod, params) || AsksForm(rpcMethod, params)
  }

  /** The kind of an interaction, its route, and whether it can be approved. */
  ghost predicate Yields(provider: Provider, rpcMethod: string, params: Json, kind: Kind, route: Route) {
    && (AsksPlan(provider, rpcMethod, params) ==> kind == PermissionKind && route == GrokPlan)
    && (AsksGrokForm(provider, rpcMethod, params) ==> kind == ElicitationKind && route == GrokElicitation)
    && (AsksQuestions(provider, rpcMethod, params) ==>
          kind == QuestionKind && route.GrokQuestion? && Numbers(route.mapping, params.fields["questions"].items))
    && (AsksPermission(rpcMethod, params) ==>
          var items := params.fields["options"].items;
          if SeveralWays(items) then kind == QuestionKind && route.Choice?
          else kind == PermissionKind && route.Permission? && (route.allow.Some? <==> SomeWay(items)))
    && (AsksForm(rpcMethod, params) ==> kind == ElicitationKind && route == Elicitation)
  }

  /** The five methods, told apart by their lengths. */
  predicate MethodIs(rpcMethod: string, name: string, length: nat) {
    rpcMethod == name ==> |rpcMethod| == length
  }

  lemma MethodsDiffer(rpcMethod: string)
    ensures MethodIs(rpcMethod, "_x.ai/exit_plan_mode", 20) && MethodIs(rpcMethod, "_x.ai/mcp/elicit", 16)
    ensures MethodIs(rpcMethod, "_x.ai/ask_user_question", 23) && MethodIs(rpcMethod, "session/request_permission", 26)
    ensures MethodIs(rpcMethod, "elicitation/create", 18)
  {
  }

  lemma QuestionsMean(provider: Provider, rpcMethod: string, params: Json)
    requires provider == Grok && rpcMethod == "_x.ai/ask_user_question"
    ensures AsksQuestions(provider, rpcMethod, params)
            <==> && params.At("questions").List? && 1 <= |params.At("questions").items| <= 20
                 && MapQuestions(params.At("questions").items).Some?
    ensures AsksQuestions(provider, rpcMethod, params) ==>
              Numbers(MapQuestions(params.fields["questions"].items).value, params.fields["questions"].items)
  {
    if params.At("questions").List? {
      var items := params.At("questions").items;
      MappingNumbers(items);
      DistinctMeans(items);
      hide MapQuestions, Numbers, AcpReplies.Distinct;
    }
  }

  lemma DistinctMeans(items: seq<Json>)
    ensures AcpReplies.Distinct(items)
            <==> && (forall i :: 0 <= i < |items| ==>
                       Carries(items[i], "question") && TextUpTo(items[i].fields["question"], 2_000))
                 && (forall i, j :: 0 <= i < j < |items| ==> items[i].fields["question"] != items[j].fields["question"])
  {
    forall i | 0 <= i < |items|
      ensures Bounded(items[i].At("question"), 2000).Some?
              <==> Carries(items[i], "question") && TextUpTo(items[i].fields["question"], 2_000)
      ensures Carries(items[i], "question") ==> items[i].At("question") == items[i].fields["question"]
    {
      BoundedMeans(items[i].At("question"), 2000);
    }
    hide Bounded, TextUpTo;
  }

  lemma PermissionMeans(rpcMethod: string, params: Json)
    requires rpcMethod == "session/request_permission"
    ensures AsksPermission(rpcMethod, params)
            <==> && params.At("options").List? && ParseOptions(params.At("options").items).Some?
                 && 1 <= |ParseOptions(params.At("options").items).value| <= 50
    ensures AsksPermission(rpcMethod, params) ==>
              var items := params.fields["options"].items;
              var options := ParseOptions(items).value;
              && (|OfKind(options, ALLOW)| > 1 <==> SeveralWays(items))
              && (|OfKind(options, ALLOW)| > 0 <==> SomeWay(items))
  {
    if params.At("options").List? {
      OptionsMean(params.At("options").items);
      if ParseOptions(params.At("options").items).Some? {
        WaysMean(params.At("options").items);
      }
      hide ParseOptions, OfKind, SeveralWays, SomeWay, IsOption;
    }
  }

  lemma WaysMean(items: seq<Json>)
    requires ParseOptions(items).Some?
    ensures |OfKind(ParseOptions(items).value, "allow_once")| > 1 <==> SeveralWays(items)
    ensures |OfKind(ParseOptions(items).value, "allow_once")| > 0 <==> SomeWay(items)
  {
    var options := ParseOptions(items).value;
    OptionsMean(items);
    WaysCounted(options);
    forall i | 0 <= i < |items|
      ensures options[i].kind == "allow_once" <==> IsOf(items[i], "allow_once")
    {
      OptionMeans(items[i]);
    }
    hide ParseOptions, ParseOption, OfKind, IsOf;
  }

  lemma PermissionRoutes(provider: Provider, rpcMethod: string, params: Json)
    requires rpcMethod == "session/request_permission"
    ensures RouteOf(provider, rpcMethod, params).Some? <==> Asks(provider, rpcMethod, params)
    ensures RouteOf(provider, rpcMethod, params).Some? ==>
              var (kind, route) := RouteOf(provider, rpcMethod, params).value;
              Yields(provider, rpcMethod, params, kind, route)
  {
    MethodsDiffer(rpcMethod);
    PermissionMeans(rpcMethod, params);
    hide Bounded, TextUpTo, MapQuestions, ParseOptions, OfKind, SeveralWays, SomeWay, IsOption, Choices, Numbers;
  }

  lemma RouteMeans(provider: Provider, rpcMethod: string, params: Json)
    ensures RouteOf(provider, rpcMethod, params).Some? <==> Asks(provider, rpcMethod, params)
    ensures RouteOf(provider, rpcMethod, params).Some? ==>
              var (kind, route) := RouteOf(provider, rpcMethod, params).value;
              Yields(provider, rpcMethod, params, kind, route)
  {
    MethodsDiffer(rpcMethod);
    if rpcMethod == "session/request_permission" {
      PermissionRoutes(provider, rpcMethod, params);
    } else {
      BoundedMeans(params.At("planContent"), 65_536);
      if rpcMethod == "_x.ai/ask_user_question" && provider == Grok {
        QuestionsMean(provider, rpcMethod, params);
      }
      hide Bounded, TextUpTo, MapQuestions, ParseOptions, PermissionRoute, Numbers;
    }
  }

  /** A frame becomes an interaction exactly when it is addressed to this session and asks for a plan's
      approval, a form, questions or a permission, as its JSON says; the interaction keeps the frame's
      id, and its kind, its route and whether it can be approved follow from what the frame asks. */
  lemma InteractMeans(provider: Provider, session: string, frame: Frame, at: nat)
    ensures var x := Interact(provider, session, frame, at);
            && (x.Some? <==> && Addressed(provider, session, frame, at)
                             && Asks(provider, frame.rpcMethod.value, frame.params.value))
            && (x.Some? ==>
                  && frame.id == Some(x.value.rpcId)
                  && Yields(provider, frame.rpcMethod.value, frame.params.value, x.value.kind, x.value.route)
                  && (x.value.approvable
                      <==> x.value.route.GrokPlan? || (x.value.route.Permission? && x.value.route.allow.Some?)))
  {
    if frame.id.Some? {
      BoundedMeans(frame.id.value, 256);
    }
    if frame.params.Some? && frame.rpcMethod.Some? {
      RouteMeans(provider, frame.rpcMethod.value, frame.params.value);
    }
    hide Bounded, TextUpTo, Asks, RouteOf;
  }

  function OptionJson(kind: string, id: string, name: string): Json {
    Object(map["kind" := Text(kind), "optionId" := Text(id), "name" := Text(name)])
  }

  lemma OptionJsonIsOption(kind: string, id: string, name: string)
    requires 1 <= |kind| <= 64 && 1 <= |id| <= 256 && 1 <= |name| <= 500
    requires '\0' !in kind && '\0' !in id && '\0' !in name
    ensures IsOption(OptionJson(kind, id, name))
    ensures forall other :: IsOf(OptionJson(kind, id, name), other) <==> kind == other
  {
    assert |"kind"| == |"name"| == 4 && |"optionId"| == 8 && "kind"[0] != "name"[0];
  }

  /** A permission with one way to allow and one to reject becomes an approval. */
  lemma ApprovalIsTaken()
    ensures var items := [OptionJson("allow_once", "yes", "Allow"), OptionJson("reject_once", "no", "Reject")];
            var params := Object(map["sessionId" := Text("s"), "options" := List(items)]);
            var frame := Frame(Some(Number(7)), Some("session/request_permission"), Some(params));
            var x := Interact(Kimi, "s", frame, 0);
            x.Some? && x.value.kind == PermissionKind && x.value.approvable && x.value.rpcId == Number(7)
  {
    var items := [OptionJson("allow_once", "yes", "Allow"), OptionJson("reject_once", "no", "Reject")];
    var params := Object(map["sessionId" := Text("s"), "options" := List(items)]);
    var frame := Frame(Some(Number(7)), Some("session/request_permission"), Some(params));
    OptionJsonIsOption("allow_once", "yes", "Allow");
    OptionJsonIsOption("reject_once", "no", "Reject");
    assert "allow_once"[0] != "reject_once"[0] && "sessionId"[0] != "options"[0];
    assert IsOf(items[0], "allow_once") && !IsOf(items[1], "allow_once");
    hide OptionJson, IsOption, IsOf, Interact;
    assert AsksPermission("session/request_permission", params);
    assert SomeWay(items) && !SeveralWays(items);
    InteractMeans(Kimi, "s", frame, 0);
  }

  // ----- What a permission reply selects -----

  ghost predicate FirstItem(items: seq<Json>, k: int, kind: string) {
    0 <= k < |items| && IsOf(items[k], kind) && forall i :: 0 <= i < k ==> !IsOf(items[i], kind)
  }

  predicate OffersOnce(o: Json) {
    IsOf(o, "allow_once") || IsOf(o, "reject_once")
  }

  predicate Labelled(o: Json, caption: string) {
    OffersOnce(o) && Carries(o, "name") && o.fields["name"] == Text(caption)
  }

  ghost predicate FirstLabelled(items: seq<Json>, k: int, caption: string) {
    0 <= k < |items| && Labelled(items[k], caption) && forall i :: 0 <= i < k ==> !Labelled(items[i], caption)
  }

  predicate HasId(o: Json, id: string) {
    Carries(o, "optionId") && o.fields["optionId"] == Text(id)
  }

  /** The response answers the one question, with this label alone. */
  predicate Picks(response: Option<Response>, caption: string) {
    && response.Some? && response.value.payload.Some? && response.value.payload.value.AgentQuestion?
    && "choice" in response.value.payload.value.answers
    && response.value.payload.value.answers["choice"] == [caption]
  }

  /** A permission reply selects an option of its frame exactly when, with one way to allow at most, the
      response allows and the option is the first to allow once, or denies and it is the first to reject
      once; with several ways, when it is the first offered under the label picked. Otherwise it selects
      nothing. */
  lemma PermissionSelects(provider: Provider, session: string, frame: Frame, at: nat, response: Option<Response>,
                          id: string)
    requires Interact(provider, session, frame, at).Some? && frame.rpcMethod == Some("session/request_permission")
    ensures var items := frame.params.value.At("options").items;
            var reply := Respond(Interact(provider, session, frame, at).value.route, response);
            && (reply == Selected(id)
                <==> if SeveralWays(items) then
                       exists k, caption ::
                         Picks(response, caption) && FirstLabelled(items, k, caption) && HasId(items[k], id)
                     else
                       && response.Some? && (response.value.action == Allow || response.value.action == Deny)
                       && exists k ::
                            FirstItem(items, k, if response.value.action == Allow then "allow_once" else "reject_once")
                            && HasId(items[k], id))
            && (reply.Selected? || reply == NothingSelected)
  {
    var items := frame.params.value.At("options").items;
    RouteOfPermission(provider, session, frame, at);
    var options := ParseOptions(items).value;
    PermissionReply(options, response, id);
    SameOptions(items, id);
    hide Interact, PermissionRoute, ParseOptions, OfKind, Choices, FirstNamed, FirstOf, FirstItem, FirstLabelled;
    hide SeveralWays, IsOf, HasId, Offers;
    assert forall caption :: Picks(response, caption) <==> Chooses(response, caption);
  }

  lemma RouteOfPermission(provider: Provider, session: string, frame: Frame, at: nat)
    requires Interact(provider, session, frame, at).Some? && frame.rpcMethod == Some("session/request_permission")
    ensures frame.params.Some? && frame.params.value.At("options").List?
    ensures var items := frame.params.value.At("options").items;
            var route := Interact(provider, session, frame, at).value.route;
            && ParseOptions(items).Some? && route == PermissionRoute(ParseOptions(items).value)
            && (|OfKind(ParseOptions(items).value, ALLOW)| > 1 <==> SeveralWays(items))
            && (route.Choice? || route.Permission?)
  {
    MethodsDiffer(frame.rpcMethod.value);
    PermissionMeans(frame.rpcMethod.value, frame.params.value);
    hide MapQuestions, ParseOptions, OfKind, Choices, Bounded, SeveralWays, SomeWay, IsOption;
  }

  /** The parsed option says what its JSON does. */
  ghost predicate SameOption(o: PermissionOption, item: Json) {
    && (forall kind :: o.kind == kind <==> IsOf(item, kind))
    && (forall caption :: Offers(o) && o.name == caption <==> Labelled(item, caption))
    && (forall id :: o.id == id <==> HasId(item, id))
  }

  lemma ParsedIsSame(item: Json)
    requires ParseOption(item).Some?
    ensures SameOption(ParseOption(item).value, item)
  {
    OptionMeans(item);
    hide ParseOption;
  }

  lemma SameOptions(items: seq<Json>, id: string)
    requires ParseOptions(items).Some?
    ensures var options := ParseOptions(items).value;
            && (forall k, kind :: FirstOf(options, k, kind) <==> FirstItem(items, k, kind))
            && (forall k, caption :: FirstNamed(options, k, caption) <==> FirstLabelled(items, k, caption))
            && (forall k :: 0 <= k < |items| ==> (options[k].id == id <==> HasId(items[k], id)))
  {
    var options := ParseOptions(items).value;
    OptionsMean(items);
    forall k | 0 <= k < |items|
      ensures SameOption(options[k], items[k])
    {
      ParsedIsSame(items[k]);
    }
    hide ParseOptions, ParseOption, IsOption, SameOption, FirstOf, FirstItem, FirstNamed, FirstLabelled;
    SameFirsts(options, items, id);
  }

  lemma SameFirsts(options: seq<PermissionOption>, items: seq<Json>, id: string)
    requires |options| == |items| && forall k :: 0 <= k < |items| ==> SameOption(options[k], items[k])
    ensures forall k, kind :: FirstOf(options, k, kind) <==> FirstItem(items, k, kind)
    ensures forall k, caption :: FirstNamed(options, k, caption) <==> FirstLabelled(items, k, caption)
    ensures forall k :: 0 <= k < |items| ==> (options[k].id == id <==> HasId(items[k], id))
  {
    hide IsOf, Labelled, HasId, Offers;
  }
}
