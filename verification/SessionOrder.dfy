/** `web/agent-state.js`: the order sessions are listed in, and when a deleted task comes back. */
module SessionOrder {
  import opened Options

  // ----- JavaScript numbers, as far as this code needs them -----

  datatype Num = Fin(n: int) | PosInf | NegInf | NaN

  function Minus(a: Num, b: Num): Num {
    match (a, b)
    case (Fin(m), Fin(n)) => Fin(m - n)
    case (NaN, _) => NaN
    case (_, NaN) => NaN
    case (PosInf, PosInf) => NaN
    case (NegInf, NegInf) => NaN
    case (PosInf, _) => PosInf
    case (NegInf, _) => NegInf
    case (_, PosInf) => NegInf
    case (_, NegInf) => PosInf
  }

  predicate Truthy(a: Num) {
    a != Fin(0) && a != NaN
  }

  predicate Negative(a: Num) {
    a.NegInf? || (a.Fin? && a.n < 0)
  }

  predicate Positive(a: Num) {
    a.PosInf? || (a.Fin? && a.n > 0)
  }

  function Min(a: Num, b: Num): Num {
    if a.NaN? || b.NaN? then NaN else if a.PosInf? || b.NegInf? then b
    else if b.PosInf? || a.NegInf? then a
    else Fin(if a.n <= b.n then a.n else b.n)
  }

  // ----- Sessions -----

  datatype ExecState = Idle | ResponseFinished | Failed | Busy

  datatype Kind = Error | Approval | NativeApproval | Question | Completion | OtherKind

  /** Times are milliseconds; 0 stands for a missing one, which the code treats alike. */
  datatype Session = Session(id: string, exec: ExecState, lastEventAt: nat, turnStartedAt: nat, activitySince: nat)

  /** `live` means open, committing or decision_sent. */
  datatype Item = Item(sessionId: string, kind: Kind, live: bool, createdAt: nat, acknowledged: bool)

  predicate Actionable(s: Session, item: Item) {
    item.sessionId == s.id && item.live && !(item.kind == Completion && item.acknowledged)
  }

  predicate SomeOf(s: Session, attention: seq<Item>, kind: Kind) {
    exists i :: 0 <= i < |attention| && Actionable(s, attention[i]) && attention[i].kind == kind
  }

  function SessionPriority(s: Session, attention: seq<Item>): int {
    if s.exec == Failed || SomeOf(s, attention, Error) then 0
    else if SomeOf(s, attention, Approval) then 1
    else if SomeOf(s, attention, NativeApproval) then 2
    else if SomeOf(s, attention, Question) then 3
    else if s.exec == Busy then 4
    else if SomeOf(s, attention, Completion) then 5
    else 6
  }

  /** `attentionPriority`. */
  function AttentionPriority(kind: Kind): int {
    match kind
    case Error => 0
    case Approval => 1
    case NativeApproval => 2
    case Question => 3
    case Completion => 5
    case OtherKind => 4
  }

  /** The least of a session's own rank and those of its actionable items of a known kind. */
  function LeastRank(s: Session, attention: seq<Item>): int {
    if attention == [] then
      match s.exec
      case Failed => 0
      case Busy => 4
      case _ => 6
    else
      var item, least := attention[|attention| - 1], LeastRank(s, attention[..|attention| - 1]);
      if Actionable(s, item) && item.kind != OtherKind && AttentionPriority(item.kind) < least
      then AttentionPriority(item.kind) else least
  }

  lemma SomeOfLast(s: Session, attention: seq<Item>, n: nat, kind: Kind)
    requires n + 1 == |attention|
    ensures SomeOf(s, attention, kind)
            <==> SomeOf(s, attention[..n], kind) || (Actionable(s, attention[n]) && attention[n].kind == kind)
  {
    if i :| 0 <= i < n && Actionable(s, attention[i]) && attention[i].kind == kind {
      assert attention[..n][i] == attention[i];
    }
  }

  /** A session's priority is the least rank among itself and what it waits for, so it is listed
      with its most urgent item. */
  lemma {:induction false} PriorityIsLeastRank(s: Session, attention: seq<Item>)
    ensures SessionPriority(s, attention) == LeastRank(s, attention)
  {
    if attention != [] {
      var n := |attention| - 1;
      PriorityIsLeastRank(s, attention[..n]);
      SomeOfLast(s, attention, n, Error);
      SomeOfLast(s, attention, n, Approval);
      SomeOfLast(s, attention, n, NativeApproval);
      SomeOfLast(s, attention, n, Question);
      SomeOfLast(s, attention, n, Completion);
      hide SomeOf;
    }
  }

  /** The oldest dated item, infinite when there is none. */
  function Oldest(s: Session, attention: seq<Item>): Num {
    if attention == [] then PosInf
    else
      var item, value := attention[|attention| - 1], Oldest(s, attention[..|attention| - 1]);
      if Actionable(s, item) then Min(value, if item.createdAt == 0 then PosInf else Fin(item.createdAt)) else value
  }

  function Or(a: nat, b: nat): nat {
    if a != 0 then a else b
  }

  /** `localeCompare`, for a locale that ranks strings. */
  function LocaleCompare(rank: string -> real, a: string, b: string): Num {
    if rank(a) < rank(b) then Fin(-1) else if rank(a) > rank(b) then Fin(1) else Fin(0)
  }

  function CompareSessions(left: Session, right: Session, attention: seq<Item>, selected: Option<string>,
                           rank: string -> real): Num
  {
    var leftPriority, rightPriority := SessionPriority(left, attention), SessionPriority(right, attention);
    if leftPriority != rightPriority then Fin(leftPriority - rightPriority)
    else if selected == Some(left.id) then Fin(-1)
    else if selected == Some(right.id) then Fin(1)
    else
      var difference :=
        if leftPriority <= 3 then Minus(Oldest(left, attention), Oldest(right, attention))
        else if leftPriority == 4 then
          Fin(Or(right.turnStartedAt, right.activitySince) - Or(left.turnStartedAt, left.activitySince))
        else Fin(right.lastEventAt - left.lastEventAt);
      if Truthy(difference) then difference else LocaleCompare(rank, left.id, right.id)
  }

  // ----- The order -----

  /** What the comparison goes by, in this order; `age` is at most infinite. */
  datatype Key = Key(priority: int, unselected: int, age: Num, rank: real)

  function KeyOf(s: Session, attention: seq<Item>, selected: Option<string>, rank: string -> real): Key {
    var priority := SessionPriority(s, attention);
    Key(priority, if selected == Some(s.id) then 0 else 1,
        if priority <= 3 then Oldest(s, attention)
        else if priority == 4 then Fin(0 - Or(s.turnStartedAt, s.activitySince))
        else Fin(0 - s.lastEventAt),
        rank(s.id))
  }

  predicate AgeBefore(a: Num, b: Num) {
    a.Fin? && (b.PosInf? || (b.Fin? && a.n < b.n))
  }

  predicate KeyBefore(a: Key, b: Key) {
    a.priority < b.priority
    || (a.priority == b.priority
        && (a.unselected < b.unselected
            || (a.unselected == b.unselected
                && (AgeBefore(a.age, b.age) || (a.age == b.age && a.rank < b.rank)))))
  }

  lemma {:induction false} OldestIsAge(s: Session, attention: seq<Item>)
    ensures Oldest(s, attention).Fin? || Oldest(s, attention).PosInf?
  {
    if attention != [] {
      OldestIsAge(s, attention[..|attention| - 1]);
    }
  }

  /** For two different sessions the comparison is the order of their keys. Sessions without a
      dated item compare as equal there, though their infinite ages subtract to NaN. */
  lemma ComparesByKey(left: Session, right: Session, attention: seq<Item>, selected: Option<string>,
                      rank: string -> real)
    requires left.id != right.id
    ensures var c := CompareSessions(left, right, attention, selected, rank);
            var l, r := KeyOf(left, attention, selected, rank), KeyOf(right, attention, selected, rank);
            && (Negative(c) <==> KeyBefore(l, r))
            && (Positive(c) <==> KeyBefore(r, l))
            && (c == Fin(0) <==> l == r)
  {
    OldestIsAge(left, attention);
    OldestIsAge(right, attention);
    hide SessionPriority, Oldest;
  }

  /** Two different sessions compare as equal exactly when their priorities and ages agree and
      the locale does not tell their ids apart; neither is then selected. */
  lemma TieMeans(left: Session, right: Session, attention: seq<Item>, selected: Option<string>, rank: string -> real)
    requires left.id != right.id
    ensures CompareSessions(left, right, attention, selected, rank) == Fin(0)
            <==> selected != Some(left.id) && selected != Some(right.id) && rank(left.id) == rank(right.id)
                 && KeyOf(left, attention, None, rank) == KeyOf(right, attention, None, rank)
  {
    ComparesByKey(left, right, attention, selected, rank);
  }

  /** No two of the sessions tie. */
  ghost predicate Separated(sessions: set<Session>, attention: seq<Item>, selected: Option<string>,
                            rank: string -> real)
  {
    forall a, b :: a in sessions && b in sessions && a != b ==>
      KeyOf(a, attention, selected, rank) != KeyOf(b, attention, selected, rank)
  }

  predicate Before(a: Session, b: Session, attention: seq<Item>, selected: Option<string>, rank: string -> real) {
    Negative(CompareSessions(a, b, attention, selected, rank))
  }

  /** Of two sessions one is before the other, the comparison the other way round says the
      opposite, and being before carries over. */
  ghost predicate StrictTotalOrder(sessions: set<Session>, attention: seq<Item>, selected: Option<string>,
                                   rank: string -> real)
  {
    && (forall a, b :: a in sessions && b in sessions && a != b ==>
          (Before(a, b, attention, selected, rank) <==> Positive(CompareSessions(b, a, attention, selected, rank)))
          && (Before(a, b, attention, selected, rank) <==> !Before(b, a, attention, selected, rank)))
    && (forall a, b, c :: a in sessions && b in sessions && c in sessions && a != b && b != c && a != c ==>
          Before(a, b, attention, selected, rank) && Before(b, c, attention, selected, rank) ==>
            Before(a, c, attention, selected, rank))
  }

  ghost predicate DistinctIds(sessions: set<Session>) {
    forall a, b :: a in sessions && b in sessions && a != b ==> a.id != b.id
  }

  /** On sessions with distinct ids the comparison is a strict total order exactly when no two
      of them tie, for any attention list and selection. */
  lemma TotalWhenSeparated(sessions: set<Session>, attention: seq<Item>, selected: Option<string>, rank: string -> real)
    requires DistinctIds(sessions)
    ensures StrictTotalOrder(sessions, attention, selected, rank) <==> Separated(sessions, attention, selected, rank)
  {
    forall a, b | a in sessions && b in sessions && a != b
      ensures var c := CompareSessions(a, b, attention, selected, rank);
              var l, r := KeyOf(a, attention, selected, rank), KeyOf(b, attention, selected, rank);
              (Negative(c) <==> KeyBefore(l, r)) && (Positive(c) <==> KeyBefore(r, l))
    {
      ComparesByKey(a, b, attention, selected, rank);
    }
    forall s | s in sessions
      ensures KeyOf(s, attention, selected, rank).age.Fin? || KeyOf(s, attention, selected, rank).age.PosInf?
    {
      OldestIsAge(s, attention);
    }
    hide CompareSessions, KeyOf;
    KeysAreOrdered();
  }

  predicate Comparable(k: Key) {
    k.age.Fin? || k.age.PosInf?
  }

  lemma KeysAreOrdered()
    ensures forall a, b :: Comparable(a) && Comparable(b) ==> a == b || KeyBefore(a, b) || KeyBefore(b, a)
    ensures forall a, b :: KeyBefore(a, b) ==> !KeyBefore(b, a) && a != b
    ensures forall a, b, c :: KeyBefore(a, b) && KeyBefore(b, c) ==> KeyBefore(a, c)
  {
  }

  /** A locale that tells all the ids apart leaves no ties. */
  lemma RankSeparates(sessions: set<Session>, attention: seq<Item>, selected: Option<string>, rank: string -> real)
    requires forall a, b :: a in sessions && b in sessions && a != b ==> rank(a.id) != rank(b.id)
    ensures Separated(sessions, attention, selected, rank)
  {
  }

  const COMPOSED := "\U{e9}"
  const DECOMPOSED := "e\U{301}"

  function IdleSession(id: string): Session {
    Session(id, Idle, 0, 0, 0)
  }

  /** These two ids are canonically equivalent, which a locale ranks alike: with nothing else to
      tell them apart, the sessions tie, and there is no total order on them. */
  lemma EquivalentIdsTie(rank: string -> real)
    requires rank(COMPOSED) == rank(DECOMPOSED)
    ensures COMPOSED != DECOMPOSED
    ensures CompareSessions(IdleSession(COMPOSED), IdleSession(DECOMPOSED), [], None, rank) == Fin(0)
    ensures !StrictTotalOrder({IdleSession(COMPOSED), IdleSession(DECOMPOSED)}, [], None, rank)
  {
    assert |COMPOSED| != |DECOMPOSED|;
    TieIsNoOrder(COMPOSED, DECOMPOSED, rank);
  }

  lemma TieIsNoOrder(id: string, twin: string, rank: string -> real)
    requires id != twin && rank(id) == rank(twin)
    ensures CompareSessions(IdleSession(id), IdleSession(twin), [], None, rank) == Fin(0)
    ensures !StrictTotalOrder({IdleSession(id), IdleSession(twin)}, [], None, rank)
  {
    var a, b := IdleSession(id), IdleSession(twin);
    assert KeyOf(a, [], None, rank) == Key(6, 1, Fin(0), rank(id)) == KeyOf(b, [], None, rank);
    hide CompareSessions, KeyOf, StrictTotalOrder, SessionPriority, Oldest;
    TieMeans(a, b, [], None, rank);
    assert a in {a, b} && b in {a, b} && a != b;
    TotalWhenSeparated({a, b}, [], None, rank);
  }

  /** Compared with itself, a session is before itself exactly when it is the selected one, so
      the comparison is an order on different sessions only. */
  lemma SelfComparison(s: Session, attention: seq<Item>, selected: Option<string>, rank: string -> real)
    ensures CompareSessions(s, s, attention, selected, rank) == Fin(if selected == Some(s.id) then -1 else 0)
  {
    OldestIsAge(s, attention);
  }

  // ----- What is listed first -----

  /** The session waits for the item: it is live, and no completion already acknowledged. */
  predicate WaitsFor(s: Session, item: Item) {
    item.sessionId == s.id && item.live && (item.kind == Completion ==> !item.acknowledged)
  }

  predicate WaitsForAny(s: Session, attention: seq<Item>, kinds: set<Kind>) {
    exists item <- attention :: WaitsFor(s, item) && item.kind in kinds
  }

  lemma SomeOfMeans(s: Session, attention: seq<Item>, kind: Kind)
    ensures SomeOf(s, attention, kind) <==> WaitsForAny(s, attention, {kind})
  {
    if item :| item in attention && WaitsFor(s, item) && item.kind in {kind} {
      var i :| 0 <= i < |attention| && attention[i] == item;
      assert Actionable(s, attention[i]);
    }
    if i :| 0 <= i < |attention| && Actionable(s, attention[i]) && attention[i].kind == kind {
      assert WaitsFor(s, attention[i]);
    }
  }

  lemma WaitsForMore(s: Session, attention: seq<Item>, kinds: set<Kind>, kind: Kind)
    ensures WaitsForAny(s, attention, kinds + {kind})
            <==> WaitsForAny(s, attention, kinds) || WaitsForAny(s, attention, {kind})
  {
    hide WaitsFor;
  }

  /** How urgent a session is: a failure or an error comes first, then an approval, a native approval and
      a question, then being busy, then a completion. */
  lemma PriorityMeans(s: Session, attention: seq<Item>)
    ensures var p, failed := SessionPriority(s, attention), s.exec == Failed;
            && 0 <= p <= 6
            && (p <= 0 <==> failed || WaitsForAny(s, attention, {Error}))
            && (p <= 1 <==> failed || WaitsForAny(s, attention, {Error, Approval}))
            && (p <= 2 <==> failed || WaitsForAny(s, attention, {Error, Approval, NativeApproval}))
            && (p <= 3 <==> failed || WaitsForAny(s, attention, {Error, Approval, NativeApproval, Question}))
            && (p <= 4 <==> p <= 3 || s.exec == Busy)
            && (p <= 5 <==> p <= 4 || WaitsForAny(s, attention, {Completion}))
  {
    SomeOfMeans(s, attention, Error);
    SomeOfMeans(s, attention, Approval);
    SomeOfMeans(s, attention, NativeApproval);
    SomeOfMeans(s, attention, Question);
    SomeOfMeans(s, attention, Completion);
    WaitsForMore(s, attention, {Error}, Approval);
    WaitsForMore(s, attention, {Error, Approval}, NativeApproval);
    WaitsForMore(s, attention, {Error, Approval, NativeApproval}, Question);
    assert {Error} + {Approval} == {Error, Approval};
    assert {Error, Approval} + {NativeApproval} == {Error, Approval, NativeApproval};
    assert {Error, Approval, NativeApproval} + {Question} == {Error, Approval, NativeApproval, Question};
    hide SomeOf, WaitsForAny;
  }

  /** `t` is the time of a dated item the session waits for. */
  ghost predicate WaitsSince(s: Session, attention: seq<Item>, t: int) {
    t > 0 && exists item <- attention :: WaitsFor(s, item) && item.createdAt == t
  }

  lemma WaitsSinceLast(s: Session, front: seq<Item>, last: Item, t: int)
    ensures WaitsSince(s, front + [last], t)
            <==> WaitsSince(s, front, t) || (t > 0 && WaitsFor(s, last) && last.createdAt == t)
  {
    hide WaitsFor;
    assert forall item :: item in front + [last] <==> item in front || item == last;
  }

  lemma {:induction false} OldestMeans(s: Session, attention: seq<Item>)
    ensures forall t :: WaitsSince(s, attention, t) ==> Oldest(s, attention).Fin? && Oldest(s, attention).n <= t
    ensures Oldest(s, attention).Fin? ==> WaitsSince(s, attention, Oldest(s, attention).n)
    ensures Oldest(s, attention).Fin? || Oldest(s, attention).PosInf?
  {
    if attention != [] {
      var front, last := attention[..|attention| - 1], attention[|attention| - 1];
      OldestMeans(s, front);
      assert Actionable(s, last) <==> WaitsFor(s, last);
      forall t: int
        ensures WaitsSince(s, attention, t)
                <==> WaitsSince(s, front, t) || (t > 0 && WaitsFor(s, last) && last.createdAt == t)
      {
        WaitsSinceLast(s, front, last, t);
        assert attention == front + [last];
      }
      hide Actionable, WaitsFor, WaitsSince;
    }
  }

  /** `a` waits for something older than anything `b` waits for. */
  ghost predicate WaitsLonger(a: Session, b: Session, attention: seq<Item>) {
    exists t :: WaitsSince(a, attention, t) && forall u :: WaitsSince(b, attention, u) ==> t < u
  }

  lemma WaitsLongerMeans(a: Session, b: Session, attention: seq<Item>)
    ensures WaitsLonger(a, b, attention) <==> AgeBefore(Oldest(a, attention), Oldest(b, attention))
  {
    OldestMeans(a, attention);
    OldestMeans(b, attention);
    hide Oldest, WaitsSince;
    if AgeBefore(Oldest(a, attention), Oldest(b, attention)) {
      var t := Oldest(a, attention).n;
      assert WaitsSince(a, attention, t);
    }
  }

  function StartedAt(s: Session): nat {
    if s.turnStartedAt == 0 then s.activitySince else s.turnStartedAt
  }

  /** What puts one session before another of the same urgency, neither selected: while they wait for
      the user, waiting longer; while they work, having started later; and else a later event. */
  ghost predicate Leads(a: Session, b: Session, attention: seq<Item>, priority: int) {
    if priority <= 3 then WaitsLonger(a, b, attention)
    else if priority == 4 then StartedAt(a) > StartedAt(b)
    else a.lastEventAt > b.lastEventAt
  }

  /** One session is listed before another exactly when it is more urgent; or as urgent and selected; or,
      with neither selected, when it leads, or when none leads and the locale has its id first. */
  lemma BeforeMeans(left: Session, right: Session, attention: seq<Item>, selected: Option<string>,
                    rank: string -> real)
    requires left.id != right.id
    ensures var p, q := SessionPriority(left, attention), SessionPriority(right, attention);
            Before(left, right, attention, selected, rank)
            <==> || p < q
                 || (p == q && selected == Some(left.id))
                 || (&& p == q && selected != Some(left.id) && selected != Some(right.id)
                     && (|| Leads(left, right, attention, p)
                         || (!Leads(right, left, attention, p) && rank(left.id) < rank(right.id))))
  {
    ComparesByKey(left, right, attention, selected, rank);
    WaitsLongerMeans(left, right, attention);
    WaitsLongerMeans(right, left, attention);
    OldestIsAge(left, attention);
    OldestIsAge(right, attention);
    hide SessionPriority, Oldest, CompareSessions, WaitsLonger;
  }

  // ----- Sorting -----

  ghost predicate Sorted(list: seq<Session>, attention: seq<Item>, selected: Option<string>, rank: string -> real) {
    forall i, j :: 0 <= i < j < |list| ==> !Positive(CompareSessions(list[i], list[j], attention, selected, rank))
  }

  ghost predicate DistinctList(list: seq<Session>) {
    forall i, j :: 0 <= i < j < |list| ==> list[i].id != list[j].id
  }

  function SessionsOf(list: seq<Session>): set<Session> {
    set s | s in list
  }

  /** Whatever order sessions come in, sorting them gives one list. */
  lemma {:induction false} OneSortedList(a: seq<Session>, b: seq<Session>, attention: seq<Item>,
                                         selected: Option<string>, rank: string -> real)
    requires multiset(a) == multiset(b) && DistinctList(a) && DistinctList(b)
    requires Separated(SessionsOf(a), attention, selected, rank)
    requires Sorted(a, attention, selected, rank) && Sorted(b, attention, selected, rank)
    ensures a == b
  {
    hide CompareSessions, KeyOf, Sorted, Separated, DistinctList;
    assert |a| == |multiset(a)| == |multiset(b)| == |b|;
    if a != [] {
      SameFirst(a, b, attention, selected, rank);
      TailKeeps(a, attention, selected, rank);
      TailKeeps(b, attention, selected, rank);
      SeparatedTail(a, attention, selected, rank);
      assert a == [a[0]] + a[1..] && b == [b[0]] + b[1..];
      assert multiset(a[1..]) == multiset(a) - multiset{a[0]} == multiset(b[1..]);
      OneSortedList(a[1..], b[1..], attention, selected, rank);
    }
  }

  lemma TailKeeps(list: seq<Session>, attention: seq<Item>, selected: Option<string>, rank: string -> real)
    requires list != [] && DistinctList(list) && Sorted(list, attention, selected, rank)
    ensures DistinctList(list[1..]) && Sorted(list[1..], attention, selected, rank)
  {
    hide CompareSessions;
    var tail := list[1..];
    assert forall i :: 0 <= i < |tail| ==> tail[i] == list[i + 1];
  }

  lemma SeparatedTail(list: seq<Session>, attention: seq<Item>, selected: Option<string>, rank: string -> real)
    requires list != [] && Separated(SessionsOf(list), attention, selected, rank)
    ensures Separated(SessionsOf(list[1..]), attention, selected, rank)
  {
    hide KeyOf;
    assert SessionsOf(list[1..]) <= SessionsOf(list);
  }

  lemma SameFirst(a: seq<Session>, b: seq<Session>, attention: seq<Item>, selected: Option<string>,
                  rank: string -> real)
    requires a != [] && b != [] && multiset(a) == multiset(b) && DistinctList(a)
    requires Separated(SessionsOf(a), attention, selected, rank)
    requires Sorted(a, attention, selected, rank) && Sorted(b, attention, selected, rank)
    ensures a[0] == b[0]
  {
    assert b[0] in multiset(a) && a[0] in multiset(b);
    var i :| 0 <= i < |a| && a[i] == b[0];
    var j :| 0 <= j < |b| && b[j] == a[0];
    if i > 0 && a[0] != b[0] {
      ComparesByKey(a[0], b[0], attention, selected, rank);
      ComparesByKey(b[0], a[0], attention, selected, rank);
      OldestIsAge(a[0], attention);
      OldestIsAge(b[0], attention);
      hide CompareSessions, Oldest, SessionPriority;
      KeysAreOrdered();
    }
  }

  // ----- Deleted tasks -----

  function Max(a: int, b: int): int {
    if a >= b then a else b
  }

  function QuestionTime(s: Session, attention: seq<Item>): int {
    if attention == [] then 0
    else
      var item, value := attention[|attention| - 1], QuestionTime(s, attention[..|attention| - 1]);
      if item.sessionId == s.id && item.kind == Question then Max(value, item.createdAt) else value
  }

  function TaskVersion(s: Session, attention: seq<Item>): int {
    Max(Max(s.lastEventAt, s.turnStartedAt), QuestionTime(s, attention))
  }

  function DeletionWatermark(s: Session, now: int, attention: seq<Item>): int {
    Max(now, TaskVersion(s, attention))
  }

  predicate IsTaskDeleted(s: Session, removedAt: Num, attention: seq<Item>) {
    removedAt.Fin? && removedAt.n > 0 && TaskVersion(s, attention) <= removedAt.n
  }

  /** No question of the session is later than `at`. */
  predicate QuestionsBy(s: Session, attention: seq<Item>, at: int) {
    forall i :: 0 <= i < |attention| ==>
      attention[i].sessionId == s.id && attention[i].kind == Question ==> attention[i].createdAt <= at
  }

  lemma {:induction false} QuestionTimeMeans(s: Session, attention: seq<Item>, at: int)
    ensures QuestionTime(s, attention) <= at <==> 0 <= at && QuestionsBy(s, attention, at)
  {
    if attention != [] {
      QuestionTimeMeans(s, attention[..|attention| - 1], at);
    }
  }

  /** A task is deleted exactly when it was removed at some time and nothing of it is later. */
  lemma DeletedMeans(s: Session, removedAt: Num, attention: seq<Item>)
    ensures IsTaskDeleted(s, removedAt, attention)
            <==> && removedAt.Fin? && removedAt.n > 0
                 && s.lastEventAt <= removedAt.n && s.turnStartedAt <= removedAt.n
                 && QuestionsBy(s, attention, removedAt.n)
  {
    if removedAt.Fin? {
      QuestionTimeMeans(s, attention, removedAt.n);
    }
  }

  /** A task removed at `now` is deleted at once, and stays deleted exactly until it has an
      event, a turn or a question later than its watermark: the earliest time that is neither before
      `now` nor before anything it had then. */
  lemma DeletedUntilNewer(s: Session, attention: seq<Item>, now: int, later: Session, laterAttention: seq<Item>)
    requires now > 0
    ensures var at := DeletionWatermark(s, now, attention);
            && IsTaskDeleted(s, Fin(at), attention)
            && (IsTaskDeleted(later, Fin(at), laterAttention)
                <==> later.lastEventAt <= at && later.turnStartedAt <= at && QuestionsBy(later, laterAttention, at))
            && (forall t :: at <= t <==> now <= t && s.lastEventAt <= t && s.turnStartedAt <= t
                                         && QuestionsBy(s, attention, t))
  {
    var at := DeletionWatermark(s, now, attention);
    DeletedMeans(later, Fin(at), laterAttention);
    forall t: int
      ensures QuestionTime(s, attention) <= t <==> 0 <= t && QuestionsBy(s, attention, t)
    {
      QuestionTimeMeans(s, attention, t);
    }
    hide QuestionTime, QuestionsBy;
  }
}
