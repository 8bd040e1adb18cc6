/**
 What holds of the relay over every run of its operations, whoever calls them: no
 request is lost or duplicated between the pending and the acknowledged list, profiles
 do not disturb each other, session logs only grow, and a result once read stays.
 */
module RelayRuns {
  import opened Options
  import opened Sequences
  import opened RelayStore

  /** The calls that write the request and result lists. */
  datatype ListStep =
    | EnqueueStep(tool: string, session: Option<SessionId>, newId: RequestId)
    | AcknowledgeStep(ids: set<RequestId>, authorized: bool)
    | RecordStep(id: RequestId, body: string, session: Option<SessionId>, authorized: bool)

  /** The calls that write sessions. */
  datatype LogStep =
    | HeartbeatStep(authorized: bool)
    | ReadStep(session: SessionId, actor: Actor)
    | AppendStep(session: SessionId, message: Message)

  /** The calls that write profiles, links and the offline queue. */
  datatype NodeStep =
    | RegisterProfile(tools: set<string>)
    | RegisterLink(online: bool)
    | QueueStep(tool: string, id: RequestId, authorized: bool)

  datatype Step = Lists(lists: ListStep) | Log(log: LogStep) | Node(node: NodeStep)

  /** One call on behalf of one profile. */
  datatype Event = Event(profile: ProfileId, now: int, step: Step)

  function ApplyLists(s: Store, p: ProfileId, step: ListStep, now: int): Store {
    match step
    case EnqueueStep(tool, session, id) => Enqueue(s, p, tool, session, id, now).0
    case AcknowledgeStep(ids, ok) => Acknowledge(s, p, ids, ok).0
    case RecordStep(id, body, session, ok) => RecordResult(s, p, id, body, session, ok, now).0
  }

  function ApplyLog(s: Store, p: ProfileId, step: LogStep, now: int): Store {
    match step
    case HeartbeatStep(ok) => Heartbeat(s, p, ok, now).0
    case ReadStep(session, actor) => ReadSession(s, p, session, actor, now).0
    case AppendStep(session, message) => AppendMessage(s, p, session, message, now)
  }

  function ApplyNode(s: Store, p: ProfileId, step: NodeStep): Store {
    match step
    case RegisterProfile(tools) => s.(tools := s.tools[p := tools])
    case RegisterLink(online) => s.(online := s.online[p := online])
    case QueueStep(tool, id, ok) => QueueToolCall(s, p, tool, id, ok).0
  }

  function Apply(s: Store, e: Event): Store {
    match e.step
    case Lists(step) => ApplyLists(s, e.profile, step, e.now)
    case Log(step) => ApplyLog(s, e.profile, step, e.now)
    case Node(step) => ApplyNode(s, e.profile, step)
  }

  ghost predicate Enqueues(e: Event, p: ProfileId) {
    e.profile == p && e.step.Lists? && e.step.lists.EnqueueStep?
  }

  /** The id that this event adds to the profile's enqueue history, if it is accepted. */
  ghost function Enqueued(s: Store, e: Event, p: ProfileId): seq<RequestId> {
    if Enqueues(e, p) && Accepted(s, p, e.step.lists.tool) then [e.step.lists.newId] else []
  }

  predicate Accepted(s: Store, p: ProfileId, tool: string) {
    p in s.tools && tool in s.tools[p]
  }

  function RunEnd(s: Store, es: seq<Event>): Store
    decreases |es|
  {
    if es == [] then s else Apply(RunEnd(s, es[..|es| - 1]), es[|es| - 1])
  }

  /** Every id accepted for the profile along the run, in order. */
  ghost function History(s: Store, es: seq<Event>, p: ProfileId): seq<RequestId>
    decreases |es|
  {
    if es == [] then []
    else History(s, es[..|es| - 1], p) + Enqueued(RunEnd(s, es[..|es| - 1]), es[|es| - 1], p)
  }

  /** A minted request id is new to its profile: the source's uuid assumption. */
  ghost predicate FreshRun(s: Store, es: seq<Event>)
    decreases |es|
  {
    es == [] ||
    (var init, e := es[..|es| - 1], es[|es| - 1];
     FreshRun(s, init) && (Enqueues(e, e.profile) ==> e.step.lists.newId !in History(s, init, e.profile)))
  }

  // ---------- one step at a time ----------

  /** The parts of the store that belong to one profile. */
  ghost predicate SameFor(s: Store, t: Store, p: ProfileId) {
    && ListOf(t.pending, p) == ListOf(s.pending, p)
    && ListOf(t.acked, p) == ListOf(s.acked, p)
    && ListOf(t.results, p) == ListOf(s.results, p)
    && SessionsOf(t, p) == SessionsOf(s, p)
  }

  lemma MarkOthersUntouched(s: Store, p: ProfileId, actor: Actor, now: int, q: ProfileId)
    requires q != p
    ensures SameFor(s, MarkSessionsSeen(s, p, actor, now), q)
  {
  }

  lemma HeartbeatOthersUntouched(s: Store, p: ProfileId, authorized: bool, now: int, q: ProfileId)
    requires q != p
    ensures SameFor(s, Heartbeat(s, p, authorized, now).0, q)
  {
    var s1 := if p in s.online then s.(online := s.online[p := true]) else s;
    MarkOthersUntouched(s1, p, LocalActor, now, q);
  }

  lemma MessageOthersUntouched(s: Store, p: ProfileId, id: SessionId, message: Message, now: int, q: ProfileId)
    requires q != p
    ensures SameFor(s, AppendMessage(s, p, id, message, now), q)
  {
  }

  lemma EnqueueOthersUntouched(s: Store, p: ProfileId, tool: string, session: Option<SessionId>, id: RequestId, now: int, q: ProfileId)
    requires q != p
    ensures SameFor(s, Enqueue(s, p, tool, session, id, now).0, q)
  {
    var request := Request(id, tool, ResolvedSession(session, p), false);
    var s1 := s.(pending := s.pending[p := ListOf(s.pending, p) + [request]]);
    MessageOthersUntouched(s1, p, request.session, Message(Some(id), false, "tool_call"), now, q);
  }

  lemma RecordOthersUntouched(s: Store, p: ProfileId, id: RequestId, body: string, session: Option<SessionId>, ok: bool, now: int, q: ProfileId)
    requires q != p
    ensures SameFor(s, RecordResult(s, p, id, body, session, ok, now).0, q)
  {
    var s1 := s.(results := s.results[p := ListOf(s.results, p) + [Result(id, body)]],
                 resultOrder := if p in s.results then s.resultOrder else s.resultOrder + [p]);
    MessageOthersUntouched(s1, p, ResolvedSession(session, p), Message(Some(id), true, "tool_result"), now, q);
  }

  lemma ListsOthersUntouched(s: Store, p: ProfileId, step: ListStep, now: int, q: ProfileId)
    requires q != p
    ensures SameFor(s, ApplyLists(s, p, step, now), q)
  {
    match step
    case EnqueueStep(tool, session, id) => EnqueueOthersUntouched(s, p, tool, session, id, now, q);
    case AcknowledgeStep(_, _) =>
    case RecordStep(id, body, session, ok) => RecordOthersUntouched(s, p, id, body, session, ok, now, q);
  }

  lemma LogOthersUntouched(s: Store, p: ProfileId, step: LogStep, now: int, q: ProfileId)
    requires q != p
    ensures SameFor(s, ApplyLog(s, p, step, now), q)
  {
    match step
    case HeartbeatStep(ok) => HeartbeatOthersUntouched(s, p, ok, now, q);
    case ReadStep(_, _) =>
    case AppendStep(id, message) => MessageOthersUntouched(s, p, id, message, now, q);
  }

  lemma NodeOthersUntouched(s: Store, p: ProfileId, step: NodeStep, q: ProfileId)
    ensures SameFor(s, ApplyNode(s, p, step), q)
  {
  }

  /** A call for one profile leaves every other profile's lists, results and sessions alone. */
  lemma OthersUntouched(s: Store, e: Event, q: ProfileId)
    requires q != e.profile
    ensures SameFor(s, Apply(s, e), q)
  {
    match e.step
    case Lists(step) => ListsOthersUntouched(s, e.profile, step, e.now, q);
    case Log(step) => LogOthersUntouched(s, e.profile, step, e.now, q);
    case Node(step) => NodeOthersUntouched(s, e.profile, step, q);
  }

  ghost predicate SameQueues(s: Store, t: Store, p: ProfileId) {
    ListOf(t.pending, p) == ListOf(s.pending, p) && ListOf(t.acked, p) == ListOf(s.acked, p)
  }

  lemma EnqueueEffect(s: Store, p: ProfileId, tool: string, session: Option<SessionId>, id: RequestId, now: int)
    ensures var t := Enqueue(s, p, tool, session, id, now).0;
      if Accepted(s, p, tool) then
        && ListOf(t.pending, p) == ListOf(s.pending, p) + [Request(id, tool, ResolvedSession(session, p), false)]
        && ListOf(t.acked, p) == ListOf(s.acked, p)
      else t == s
  {
  }

  lemma AcknowledgeEffect(s: Store, p: ProfileId, ids: set<RequestId>)
    ensures var t := Acknowledge(s, p, ids, true).0;
      && ListOf(t.pending, p) == Remaining(ListOf(s.pending, p), ids)
      && ListOf(t.acked, p) == ListOf(s.acked, p) + Moved(ListOf(s.pending, p), ids)
  {
  }

  lemma HeartbeatKeepsQueues(s: Store, p: ProfileId, authorized: bool, now: int)
    ensures var t := Heartbeat(s, p, authorized, now).0; t.pending == s.pending && t.acked == s.acked && t.results == s.results
  {
    var s1 := if p in s.online then s.(online := s.online[p := true]) else s;
    var t := MarkSessionsSeen(s1, p, LocalActor, now);
    assert t == s1.(sessions := t.sessions);
  }

  lemma LogKeepsQueues(s: Store, p: ProfileId, step: LogStep, now: int)
    ensures var t := ApplyLog(s, p, step, now); t.pending == s.pending && t.acked == s.acked && t.results == s.results
  {
    match step
    case HeartbeatStep(ok) => HeartbeatKeepsQueues(s, p, ok, now);
    case ReadStep(_, _) =>
    case AppendStep(_, _) =>
  }

  lemma RecordKeepsQueues(s: Store, p: ProfileId, id: RequestId, body: string, session: Option<SessionId>, ok: bool, now: int)
    ensures var t := RecordResult(s, p, id, body, session, ok, now).0;
      t.pending == s.pending && t.acked == s.acked
  {
  }

  /** Only enqueueing and acknowledging touch a queue. */
  lemma OthersKeepQueues(s: Store, e: Event, p: ProfileId)
    requires !(e.step.Lists? && !e.step.lists.RecordStep?)
    ensures SameQueues(s, Apply(s, e), p)
  {
    match e.step
    case Lists(step) => RecordKeepsQueues(s, e.profile, step.id, step.body, step.session, step.authorized, e.now);
    case Log(step) => LogKeepsQueues(s, e.profile, step, e.now);
    case Node(step) => NodeOthersUntouched(s, e.profile, step, p);
  }

  lemma IdsConcat(a: seq<Request>, b: seq<Request>)
    ensures Ids(a + b) == Ids(a) + Ids(b)
  {
  }

  lemma IdsOneMore(requests: seq<Request>, last: Request)
    ensures Ids(requests + [last]) == Ids(requests) + [last.id]
  {
  }

  lemma AcknowledgeOneMore(requests: seq<Request>, last: Request, ids: set<RequestId>)
    ensures var left, moved := Remaining(requests, ids), Moved(requests, ids);
      var all := requests + [last];
      if last.id in ids
      then Ids(Remaining(all, ids)) == Ids(left) && Ids(Moved(all, ids)) == Ids(moved) + [last.id]
      else Ids(Remaining(all, ids)) == Ids(left) + [last.id] && Ids(Moved(all, ids)) == Ids(moved)
  {
    assert (requests + [last])[..|requests|] == requests;
    if last.id in ids {
      assert Remaining(requests, ids) + [] == Remaining(requests, ids);
    } else {
      assert Moved(requests, ids) + [] == Moved(requests, ids);
    }
  }

  lemma CountsOneMore(a: seq<RequestId>, b: seq<RequestId>, whole: seq<RequestId>, id: RequestId)
    requires multiset(a) + multiset(b) == multiset(whole)
    ensures multiset(a + [id]) + multiset(b) == multiset(whole + [id])
    ensures multiset(a) + multiset(b + [id]) == multiset(whole + [id])
  {
  }

  /** `left` and `moved` share the elements of `whole` between them, `left` in the order of `whole`. */
  ghost predicate Splits(left: seq<RequestId>, moved: seq<RequestId>, whole: seq<RequestId>) {
    multiset(left) + multiset(moved) == multiset(whole) && Subsequence(left, whole)
  }

  lemma SplitsOneMore(left: seq<RequestId>, moved: seq<RequestId>, whole: seq<RequestId>, id: RequestId)
    requires Splits(left, moved, whole)
    ensures Splits(left + [id], moved, whole + [id]) && Splits(left, moved + [id], whole + [id])
  {
    CountsOneMore(left, moved, whole, id);
    SubsequenceLonger(left, whole, id);
    SubsequenceBoth(left, whole, id);
  }

  /** An acknowledgement splits the pending list: nothing lost, nothing doubled, order kept. */
  lemma {:induction false} AcknowledgeSplits(requests: seq<Request>, ids: set<RequestId>)
    ensures Splits(Ids(Remaining(requests, ids)), Ids(Moved(requests, ids)), Ids(requests))
  {
    if requests == [] {
      assert Ids(requests) == [];
    } else {
      var init, last := requests[..|requests| - 1], requests[|requests| - 1];
      AcknowledgeSplits(init, ids);
      AcknowledgeOneMore(init, last, ids);
      assert requests == init + [last];
      IdsOneMore(init, last);
      SplitsOneMore(Ids(Remaining(init, ids)), Ids(Moved(init, ids)), Ids(init), last.id);
    }
  }

  /** Exactly the named requests are moved, marked as acknowledged. */
  lemma {:induction false} AcknowledgeMovesNamed(requests: seq<Request>, ids: set<RequestId>)
    ensures forall r | r in Moved(requests, ids) :: r.id in ids && r.acknowledged
    ensures forall r | r in Remaining(requests, ids) :: r.id !in ids && r in requests
    ensures forall r | r in requests :: if r.id in ids then r.(acknowledged := true) in Moved(requests, ids) else r in Remaining(requests, ids)
  {
    if requests != [] {
      AcknowledgeMovesNamed(requests[..|requests| - 1], ids);
    }
  }

  // ---------- the queue over whole runs ----------

  /** The profile's history is the disjoint union of its pending and acknowledged ids, pending in order. */
  ghost predicate Conserved(s: Store, p: ProfileId, history: seq<RequestId>) {
    && Distinct(history)
    && multiset(Ids(ListOf(s.pending, p))) + multiset(Ids(ListOf(s.acked, p))) == multiset(history)
    && Subsequence(Ids(ListOf(s.pending, p)), history)
  }

  lemma DistinctMultiset(history: seq<RequestId>, id: RequestId)
    requires Distinct(history)
    ensures multiset(history)[id] <= 1
  {
    if history != [] {
      var init := history[..|history| - 1];
      assert history == init + [history[|history| - 1]];
      DistinctMultiset(init, id);
    }
  }

  /** In every reachable store no id is both pending and acknowledged, or listed twice. */
  lemma ConservedMeansDisjoint(s: Store, p: ProfileId, history: seq<RequestId>, id: RequestId)
    requires Conserved(s, p, history)
    ensures id in history <==> (id in Ids(ListOf(s.pending, p)) || id in Ids(ListOf(s.acked, p)))
    ensures !(id in Ids(ListOf(s.pending, p)) && id in Ids(ListOf(s.acked, p)))
    ensures multiset(Ids(ListOf(s.pending, p)))[id] + multiset(Ids(ListOf(s.acked, p)))[id] <= 1
  {
    DistinctMultiset(history, id);
    assert id in history <==> id in multiset(history);
  }

  lemma HistoryOneMore(pending: seq<RequestId>, acked: seq<RequestId>, history: seq<RequestId>, id: RequestId)
    requires Distinct(history) && id !in history && Subsequence(pending, history)
    requires multiset(pending) + multiset(acked) == multiset(history)
    ensures Distinct(history + [id]) && Subsequence(pending + [id], history + [id])
    ensures multiset(pending + [id]) + multiset(acked) == multiset(history + [id])
  {
    SubsequenceBoth(pending, history, id);
    CountsOneMore(pending, acked, history, id);
  }

  lemma EnqueueConserves(s: Store, p: ProfileId, tool: string, session: Option<SessionId>, id: RequestId, now: int, history: seq<RequestId>)
    requires Conserved(s, p, history) && id !in history && Accepted(s, p, tool)
    ensures Conserved(Enqueue(s, p, tool, session, id, now).0, p, history + [id])
  {
    EnqueueEffect(s, p, tool, session, id, now);
    IdsOneMore(ListOf(s.pending, p), Request(id, tool, ResolvedSession(session, p), false));
    HistoryOneMore(Ids(ListOf(s.pending, p)), Ids(ListOf(s.acked, p)), history, id);
  }

  lemma AcknowledgeConserves(s: Store, p: ProfileId, ids: set<RequestId>, history: seq<RequestId>)
    requires Conserved(s, p, history)
    ensures Conserved(Acknowledge(s, p, ids, true).0, p, history)
  {
    AcknowledgeEffect(s, p, ids);
    var pending := ListOf(s.pending, p);
    AcknowledgeSplits(pending, ids);
    IdsConcat(ListOf(s.acked, p), Moved(pending, ids));
    SubsequenceTransitive(Ids(Remaining(pending, ids)), Ids(pending), history);
  }

  lemma StepConserves(s: Store, e: Event, p: ProfileId, history: seq<RequestId>)
    requires Conserved(s, p, history)
    requires Enqueues(e, p) ==> e.step.lists.newId !in history
    ensures Conserved(Apply(s, e), p, history + Enqueued(s, e, p))
  {
    assert history + [] == history;
    if e.profile != p {
      OthersUntouched(s, e, p);
    } else if Enqueues(e, p) {
      var EnqueueStep(tool, session, id) := e.step.lists;
      EnqueueEffect(s, p, tool, session, id, e.now);
      if Accepted(s, p, tool) {
        EnqueueConserves(s, p, tool, session, id, e.now, history);
      }
    } else if e.step.Lists? && e.step.lists.AcknowledgeStep? {
      AcknowledgeConserves(s, p, e.step.lists.ids, history);
      assert e.step.lists.authorized || Apply(s, e) == s;
    } else {
      OthersKeepQueues(s, e, p);
    }
  }

  /** Every reachable store: requests are conserved, for every profile and any mix of callers. */
  lemma {:induction false} RunConserves(es: seq<Event>, p: ProfileId)
    requires FreshRun(EmptyStore, es)
    ensures Conserved(RunEnd(EmptyStore, es), p, History(EmptyStore, es, p))
    decreases |es|
  {
    if es != [] {
      RunConserves(es[..|es| - 1], p);
      StepConserves(RunEnd(EmptyStore, es[..|es| - 1]), es[|es| - 1], p, History(EmptyStore, es[..|es| - 1], p));
    }
  }

  // ---------- logs and results only grow ----------

  ghost predicate GrowsFor(s: Store, t: Store, p: ProfileId) {
    && ListOf(s.results, p) <= ListOf(t.results, p)
    && (forall id | id in SessionsOf(s, p) ::
          id in SessionsOf(t, p) && SessionsOf(s, p)[id].messages <= SessionsOf(t, p)[id].messages)
  }

  lemma MessageGrows(s: Store, p: ProfileId, id: SessionId, message: Message, now: int)
    ensures GrowsFor(s, AppendMessage(s, p, id, message, now), p)
  {
  }

  lemma ListsGrow(s: Store, p: ProfileId, step: ListStep, now: int)
    ensures GrowsFor(s, ApplyLists(s, p, step, now), p)
  {
    match step
    case EnqueueStep(tool, session, id) =>
      var request := Request(id, tool, ResolvedSession(session, p), false);
      var s1 := s.(pending := s.pending[p := ListOf(s.pending, p) + [request]]);
      MessageGrows(s1, p, request.session, Message(Some(id), false, "tool_call"), now);
    case AcknowledgeStep(_, _) =>
    case RecordStep(id, body, session, ok) => RecordGrows(s, p, id, body, session, ok, now);
  }

  lemma RecordGrows(s: Store, p: ProfileId, id: RequestId, body: string, session: Option<SessionId>, ok: bool, now: int)
    ensures var t := RecordResult(s, p, id, body, session, ok, now).0;
      GrowsFor(s, t, p) && (ok ==> ListOf(t.results, p) == ListOf(s.results, p) + [Result(id, body)])
  {
    var s1 := s.(results := s.results[p := ListOf(s.results, p) + [Result(id, body)]],
                 resultOrder := if p in s.results then s.resultOrder else s.resultOrder + [p]);
    MessageGrows(s1, p, ResolvedSession(session, p), Message(Some(id), true, "tool_result"), now);
  }

  lemma HeartbeatGrows(s: Store, p: ProfileId, authorized: bool, now: int)
    ensures GrowsFor(s, Heartbeat(s, p, authorized, now).0, p)
  {
    HeartbeatKeepsQueues(s, p, authorized, now);
  }

  lemma LogGrows(s: Store, p: ProfileId, step: LogStep, now: int)
    ensures GrowsFor(s, ApplyLog(s, p, step, now), p)
  {
    LogKeepsQueues(s, p, step, now);
    match step
    case HeartbeatStep(ok) => HeartbeatGrows(s, p, ok, now);
    case ReadStep(_, _) =>
    case AppendStep(id, message) => MessageGrows(s, p, id, message, now);
  }

  /** The calls of the remote side leave what the local side has seen alone, and the other way round. */
  lemma SeenBySide(s: Store, p: ProfileId, tool: string, session: Option<SessionId>, id: RequestId, body: string, now: int, x: SessionId)
    ensures var t := Enqueue(s, p, tool, session, id, now).0;
      && SessionOf(t, p, x).localSeen == SessionOf(s, p, x).localSeen
      && (Accepted(s, p, tool) ==> SessionOf(t, p, ResolvedSession(session, p)).remoteSeen == now)
    ensures var t := RecordResult(s, p, id, body, session, true, now).0;
      && SessionOf(t, p, x).remoteSeen == SessionOf(s, p, x).remoteSeen
      && SessionOf(t, p, ResolvedSession(session, p)).localSeen == now
    ensures var t := Heartbeat(s, p, true, now).0;
      && SessionOf(t, p, x).remoteSeen == SessionOf(s, p, x).remoteSeen
      && (ListOf(s.pending, p) != [] && x in SessionsOf(s, p) ==> SessionOf(t, p, x).localSeen == now)
  {
    EnqueueSeen(s, p, tool, session, id, now, x);
    RecordSeen(s, p, session, id, body, now, x);
    HeartbeatSeen(s, p, now, x);
  }

  lemma EnqueueSeen(s: Store, p: ProfileId, tool: string, session: Option<SessionId>, id: RequestId, now: int, x: SessionId)
    ensures var t := Enqueue(s, p, tool, session, id, now).0;
      && SessionOf(t, p, x).localSeen == SessionOf(s, p, x).localSeen
      && (Accepted(s, p, tool) ==> SessionOf(t, p, ResolvedSession(session, p)).remoteSeen == now)
  {
  }

  lemma RecordSeen(s: Store, p: ProfileId, session: Option<SessionId>, id: RequestId, body: string, now: int, x: SessionId)
    ensures var t := RecordResult(s, p, id, body, session, true, now).0;
      && SessionOf(t, p, x).remoteSeen == SessionOf(s, p, x).remoteSeen
      && SessionOf(t, p, ResolvedSession(session, p)).localSeen == now
  {
  }

  lemma HeartbeatSeen(s: Store, p: ProfileId, now: int, x: SessionId)
    ensures var t := Heartbeat(s, p, true, now).0;
      && SessionOf(t, p, x).remoteSeen == SessionOf(s, p, x).remoteSeen
      && (ListOf(s.pending, p) != [] && x in SessionsOf(s, p) ==> SessionOf(t, p, x).localSeen == now)
  {
  }

  lemma StepGrowsFor(s: Store, e: Event, p: ProfileId)
    ensures GrowsFor(s, Apply(s, e), p)
  {
    if p != e.profile {
      OthersUntouched(s, e, p);
    } else {
      match e.step
      case Lists(step) => ListsGrow(s, p, step, e.now);
      case Log(step) => LogGrows(s, p, step, e.now);
      case Node(step) => NodeOthersUntouched(s, p, step, p);
    }
  }

  /** Over any run a profile's results and each of its session logs are only extended. */
  lemma {:induction false} RunGrows(s: Store, es: seq<Event>, p: ProfileId)
    ensures GrowsFor(s, RunEnd(s, es), p)
    decreases |es|
  {
    if es != [] {
      RunGrows(s, es[..|es| - 1], p);
      StepGrowsFor(RunEnd(s, es[..|es| - 1]), es[|es| - 1], p);
    }
  }

  lemma {:induction false} FirstResultOfPrefix(a: seq<Result>, b: seq<Result>, id: RequestId)
    requires a <= b && FirstResult(a, id).Some?
    ensures FirstResult(b, id) == FirstResult(a, id)
  {
    if a[0].requestId != id {
      FirstResultOfPrefix(a[1..], b[1..], id);
    }
  }

  /** Once a profile's lookup returns a result, it returns that same result after any further run. */
  lemma ResultNeverChanges(s: Store, es: seq<Event>, p: ProfileId, id: RequestId)
    requires ResultFor(s, p, id).Some?
    ensures ResultFor(RunEnd(s, es), p, id) == ResultFor(s, p, id)
  {
    RunGrows(s, es, p);
    FirstResultOfPrefix(ListOf(s.results, p), ListOf(RunEnd(s, es).results, p), id);
  }

  // ---------- the lookup without a profile is weaker ----------

  /** It can change its answer: a profile earlier in the table records a result for the same id later. */
  lemma UnscopedResultCanChange()
    ensures exists s: Store, e: Event, id: RequestId ::
      && UnscopedResult(s, s.resultOrder, id).Some?
      && UnscopedResult(Apply(s, e), Apply(s, e).resultOrder, id) != UnscopedResult(s, s.resultOrder, id)
  {
    var s := EmptyStore.(results := map[1 := [Result(1, "other")], 2 := [Result(7, "first")]], resultOrder := [1, 2]);
    var e := Event(1, 0, Lists(RecordStep(7, "second", None, true)));
    var t := Apply(s, e);
    assert ListOf(t.results, 1) == [Result(1, "other"), Result(7, "second")];
    assert [Result(1, "other"), Result(7, "second")][1..] == [Result(7, "second")];
    assert [1, 2][1..] == [2];
    assert FirstResult([Result(1, "other")], 7).None?;
    assert UnscopedResult(s, s.resultOrder, 7) == Some(Result(7, "first"));
    assert UnscopedResult(t, t.resultOrder, 7) == Some(Result(7, "second"));
  }

  /** Whether the table reaches this profile before any profile that has a result for the id. */
  predicate Overtakes(s: Store, order: seq<ProfileId>, p: ProfileId, id: RequestId) {
    order != [] && ResultFor(s, order[0], id).None? && (order[0] == p || Overtakes(s, order[1..], p, id))
  }

  /** The table order lists exactly the profiles that have results, each once. */
  ghost predicate OrderListsResults(s: Store) {
    Distinct(s.resultOrder) && forall q :: q in s.resultOrder <==> q in s.results
  }

  /** The event records a result for this request. */
  predicate Records(e: Event, id: RequestId) {
    e.step.Lists? && e.step.lists.RecordStep? && e.step.lists.authorized && e.step.lists.id == id
  }

  /** Only an authorised recording touches the results, and then those of its profile. */
  lemma OthersKeepResults(s: Store, e: Event)
    ensures var t := Apply(s, e);
      if e.step.Lists? && e.step.lists.RecordStep? && e.step.lists.authorized then
        && t.results == s.results[e.profile := ListOf(s.results, e.profile) + [Result(e.step.lists.id, e.step.lists.body)]]
        && t.resultOrder == if e.profile in s.results then s.resultOrder else s.resultOrder + [e.profile]
      else t.results == s.results && t.resultOrder == s.resultOrder
  {
    match e.step
    case Lists(step) => ListsKeepResults(s, e.profile, step, e.now);
    case Log(step) => LogKeepsResults(s, e.profile, step, e.now);
    case Node(step) => NodeKeepsResults(s, e.profile, step);
  }

  lemma NodeKeepsResults(s: Store, p: ProfileId, step: NodeStep)
    ensures var t := ApplyNode(s, p, step); t.results == s.results && t.resultOrder == s.resultOrder
  {
  }

  lemma ListsKeepResults(s: Store, p: ProfileId, step: ListStep, now: int)
    ensures var t := ApplyLists(s, p, step, now);
      if step.RecordStep? && step.authorized then
        && t.results == s.results[p := ListOf(s.results, p) + [Result(step.id, step.body)]]
        && t.resultOrder == if p in s.results then s.resultOrder else s.resultOrder + [p]
      else t.results == s.results && t.resultOrder == s.resultOrder
  {
    match step
    case EnqueueStep(tool, session, id) => EnqueueKeepsResults(s, p, tool, session, id, now);
    case AcknowledgeStep(_, _) =>
    case RecordStep(_, _, _, _) =>
  }

  lemma EnqueueKeepsResults(s: Store, p: ProfileId, tool: string, session: Option<SessionId>, id: RequestId, now: int)
    ensures var t := Enqueue(s, p, tool, session, id, now).0; t.results == s.results && t.resultOrder == s.resultOrder
  {
  }

  lemma LogKeepsResults(s: Store, p: ProfileId, step: LogStep, now: int)
    ensures var t := ApplyLog(s, p, step, now); t.results == s.results && t.resultOrder == s.resultOrder
  {
    match step
    case HeartbeatStep(ok) => HeartbeatKeepsResults(s, p, ok, now);
    case ReadStep(_, _) =>
    case AppendStep(_, _) =>
  }

  lemma HeartbeatKeepsResults(s: Store, p: ProfileId, authorized: bool, now: int)
    ensures var t := Heartbeat(s, p, authorized, now).0; t.results == s.results && t.resultOrder == s.resultOrder
  {
    var s1 := if p in s.online then s.(online := s.online[p := true]) else s;
    var t := MarkSessionsSeen(s1, p, LocalActor, now);
    assert t == s1.(sessions := t.sessions);
  }

  lemma {:induction false} RunListsResults(s: Store, es: seq<Event>)
    requires OrderListsResults(s)
    ensures OrderListsResults(RunEnd(s, es))
    decreases |es|
  {
    if es != [] {
      RunListsResults(s, es[..|es| - 1]);
      OthersKeepResults(RunEnd(s, es[..|es| - 1]), es[|es| - 1]);
    }
  }

  /**
   Which calls change a found unscoped answer: exactly a recording of another body for the request, by a profile
   that stands in the table before the one that answered and has no result for the request yet.
   */
  lemma UnscopedResultChangesExactly(s: Store, e: Event, id: RequestId)
    requires UnscopedResult(s, s.resultOrder, id).Some?
    ensures var t := Apply(s, e);
      UnscopedResult(t, t.resultOrder, id) != UnscopedResult(s, s.resultOrder, id)
      <==> && Records(e, id) && Overtakes(s, s.resultOrder, e.profile, id)
           && UnscopedResult(s, s.resultOrder, id) != Some(Result(id, e.step.lists.body))
  {
    var t := Apply(s, e);
    OthersKeepResults(s, e);
    if Records(e, id) {
      UnscopedAlong(s, t, s.resultOrder, e.profile, id, Result(id, e.step.lists.body));
    } else {
      if t.results != s.results {
        OtherResultIrrelevant(ListOf(s.results, e.profile), Result(e.step.lists.id, e.step.lists.body), id);
      }
      UnscopedAlike(s, t, s.resultOrder, id);
    }
    if t.resultOrder != s.resultOrder {
      UnscopedPrefix(t, s.resultOrder, e.profile, id);
    }
  }

  lemma {:induction false} OtherResultIrrelevant(results: seq<Result>, r: Result, id: RequestId)
    requires r.requestId != id
    ensures FirstResult(results + [r], id) == FirstResult(results, id)
  {
    if results != [] {
      assert (results + [r])[1..] == results[1..] + [r];
      OtherResultIrrelevant(results[1..], r, id);
    } else {
      assert (results + [r])[1..] == [];
    }
  }

  lemma {:induction false} UnscopedAlike(s: Store, t: Store, order: seq<ProfileId>, id: RequestId)
    requires forall q :: ResultFor(t, q, id) == ResultFor(s, q, id)
    ensures UnscopedResult(t, order, id) == UnscopedResult(s, order, id)
  {
    if order != [] {
      UnscopedAlike(s, t, order[1..], id);
    }
  }

  lemma {:induction false} UnscopedPrefix(t: Store, order: seq<ProfileId>, p: ProfileId, id: RequestId)
    requires UnscopedResult(t, order, id).Some?
    ensures UnscopedResult(t, order + [p], id) == UnscopedResult(t, order, id)
  {
    assert (order + [p])[1..] == order[1..] + [p];
    if ResultFor(t, order[0], id).None? {
      UnscopedPrefix(t, order[1..], p, id);
    }
  }

  lemma {:induction false} UnscopedAlong(s: Store, t: Store, order: seq<ProfileId>, p: ProfileId, id: RequestId, r: Result)
    requires UnscopedResult(s, order, id).Some? && r.requestId == id
    requires ListOf(t.results, p) == ListOf(s.results, p) + [r]
    requires forall q | q != p :: ListOf(t.results, q) == ListOf(s.results, q)
    ensures UnscopedResult(t, order, id) == if Overtakes(s, order, p, id) then Some(r) else UnscopedResult(s, order, id)
  {
    if order[0] == p {
      LastIsFirstWhenAlone(ListOf(s.results, p), r);
      if ResultFor(s, p, id).Some? {
        FirstResultOfPrefix(ListOf(s.results, p), ListOf(t.results, p), id);
      }
    } else if ResultFor(s, order[0], id).None? {
      UnscopedAlong(s, t, order[1..], p, id, r);
    }
  }

  lemma {:induction false} LastIsFirstWhenAlone(results: seq<Result>, r: Result)
    ensures FirstResult(results, r.requestId).None? ==> FirstResult(results + [r], r.requestId) == Some(r)
  {
    if results != [] && FirstResult(results, r.requestId).None? {
      assert results[0] in results;
      assert (results + [r])[1..] == results[1..] + [r];
      LastIsFirstWhenAlone(results[1..], r);
    }
  }
}
