/**
 The session logs of the relay over whole runs: every message of a session comes from one
 call, in the order of the calls, and each side's mark from its own calls.
 */
module RelaySessions {
  import opened Options
  import opened RelayStore
  import opened RelayRuns

  /** The session a call names, or the profile's own. */
  function Target(p: ProfileId, session: Option<SessionId>): SessionId {
    match session case Some(x) => x case None => OwnSession(p)
  }

  /** What the call adds to this session's log. */
  function Said(s: Store, e: Event, p: ProfileId, x: SessionId): seq<Message> {
    if e.profile != p then []
    else match e.step
      case Lists(EnqueueStep(tool, session, id)) =>
        if p in s.tools && tool in s.tools[p] && Target(p, session) == x then [Message(Some(id), false, "tool_call")] else []
      case Lists(RecordStep(id, _, session, ok)) =>
        if ok && Target(p, session) == x then [Message(Some(id), true, "tool_result")] else []
      case Log(AppendStep(session, message)) => if session == x then [message] else []
      case _ => []
  }

  /** The call marks the session as seen by the node itself: it writes or reads as the node, or beats while requests wait. */
  predicate SeenByNode(s: Store, e: Event, p: ProfileId, x: SessionId) {
    e.profile == p &&
    match e.step
    case Lists(RecordStep(_, _, session, ok)) => ok && Target(p, session) == x
    case Log(AppendStep(session, message)) => session == x && message.local
    case Log(ReadStep(session, actor)) => session == x && actor == LocalActor
    case Log(HeartbeatStep(ok)) => ok && ListOf(s.pending, p) != [] && p in s.sessions && x in s.sessions[p]
    case _ => false
  }

  /** The call marks it as seen by the remote side. */
  predicate SeenByRemote(s: Store, e: Event, p: ProfileId, x: SessionId) {
    e.profile == p &&
    match e.step
    case Lists(EnqueueStep(tool, session, _)) => p in s.tools && tool in s.tools[p] && Target(p, session) == x
    case Log(AppendStep(session, message)) => session == x && !message.local
    case Log(ReadStep(session, actor)) => session == x && actor == RemoteActor
    case _ => false
  }

  /** What one call does to one session. */
  ghost predicate Effect(s: Store, t: Store, e: Event, p: ProfileId, x: SessionId) {
    && SessionOf(t, p, x).messages == SessionOf(s, p, x).messages + Said(s, e, p, x)
    && SessionOf(t, p, x).localSeen == (if SeenByNode(s, e, p, x) then e.now else SessionOf(s, p, x).localSeen)
    && SessionOf(t, p, x).remoteSeen == (if SeenByRemote(s, e, p, x) then e.now else SessionOf(s, p, x).remoteSeen)
  }

  /** One message more in one session of one profile, and the mark of its side. */
  lemma MessageWrites(s: Store, p: ProfileId, id: SessionId, message: Message, now: int, x: SessionId)
    ensures var before, after := SessionOf(s, p, x), SessionOf(AppendMessage(s, p, id, message, now), p, x);
      if x != id then after == before
      else after == Session(before.messages + [message],
                            if message.local then now else before.localSeen,
                            if message.local then before.remoteSeen else now)
  {
  }

  lemma EnqueueWrites(s: Store, p: ProfileId, tool: string, session: Option<SessionId>, id: RequestId, now: int, x: SessionId)
    ensures var before, after := SessionOf(s, p, x), SessionOf(Enqueue(s, p, tool, session, id, now).0, p, x);
      if p in s.tools && tool in s.tools[p] && Target(p, session) == x
      then after == Session(before.messages + [Message(Some(id), false, "tool_call")], before.localSeen, now)
      else after == before
  {
    var request := Request(id, tool, ResolvedSession(session, p), false);
    var s1 := s.(pending := s.pending[p := ListOf(s.pending, p) + [request]]);
    MessageWrites(s1, p, request.session, Message(Some(id), false, "tool_call"), now, x);
  }

  lemma RecordWrites(s: Store, p: ProfileId, id: RequestId, body: string, session: Option<SessionId>, ok: bool, now: int, x: SessionId)
    ensures var before, after := SessionOf(s, p, x), SessionOf(RecordResult(s, p, id, body, session, ok, now).0, p, x);
      if ok && Target(p, session) == x
      then after == Session(before.messages + [Message(Some(id), true, "tool_result")], now, before.remoteSeen)
      else after == before
  {
    var s1 := s.(results := s.results[p := ListOf(s.results, p) + [Result(id, body)]],
                 resultOrder := if p in s.results then s.resultOrder else s.resultOrder + [p]);
    MessageWrites(s1, p, ResolvedSession(session, p), Message(Some(id), true, "tool_result"), now, x);
  }

  lemma AcknowledgeWrites(s: Store, p: ProfileId, ids: set<RequestId>, ok: bool)
    ensures Acknowledge(s, p, ids, ok).0.sessions == s.sessions
  {
  }

  lemma HeartbeatWrites(s: Store, p: ProfileId, ok: bool, now: int, x: SessionId)
    ensures var before, after := SessionOf(s, p, x), SessionOf(Heartbeat(s, p, ok, now).0, p, x);
      if ok && ListOf(s.pending, p) != [] && p in s.sessions && x in s.sessions[p] then after == before.(localSeen := now)
      else after == before
  {
  }

  lemma ReadWrites(s: Store, p: ProfileId, id: SessionId, actor: Actor, now: int, x: SessionId)
    ensures var before, after := SessionOf(s, p, x), SessionOf(ReadSession(s, p, id, actor, now).0, p, x);
      if x == id && actor == LocalActor then after == before.(localSeen := now)
      else if x == id && actor == RemoteActor then after == before.(remoteSeen := now)
      else after == before
  {
  }

  lemma ListsEffect(s: Store, e: Event, x: SessionId)
    requires e.step.Lists?
    ensures Effect(s, Apply(s, e), e, e.profile, x)
  {
    match e.step.lists
    case EnqueueStep(tool, session, id) =>
      EnqueueWrites(s, e.profile, tool, session, id, e.now, x);
      assert Apply(s, e) == Enqueue(s, e.profile, tool, session, id, e.now).0;
    case AcknowledgeStep(ids, ok) =>
      AcknowledgeWrites(s, e.profile, ids, ok);
      assert SessionOf(Apply(s, e), e.profile, x) == SessionOf(s, e.profile, x);
    case RecordStep(id, body, session, ok) =>
      RecordWrites(s, e.profile, id, body, session, ok, e.now, x);
      assert Apply(s, e) == RecordResult(s, e.profile, id, body, session, ok, e.now).0;
  }

  lemma LogEffect(s: Store, e: Event, x: SessionId)
    requires e.step.Log?
    ensures Effect(s, Apply(s, e), e, e.profile, x)
  {
    match e.step.log
    case HeartbeatStep(ok) => HeartbeatWrites(s, e.profile, ok, e.now, x);
    case ReadStep(session, actor) => ReadWrites(s, e.profile, session, actor, e.now, x);
    case AppendStep(session, message) => MessageWrites(s, e.profile, session, message, e.now, x);
  }

  lemma NodeEffect(s: Store, e: Event, x: SessionId)
    requires e.step.Node?
    ensures Effect(s, Apply(s, e), e, e.profile, x)
  {
    NodeOthersUntouched(s, e.profile, e.step.node, e.profile);
  }

  /** Exactly what each call adds to each session and which of its marks it sets. */
  lemma SessionExactly(s: Store, e: Event, p: ProfileId, x: SessionId)
    ensures Effect(s, Apply(s, e), e, p, x)
  {
    if p != e.profile {
      OthersUntouched(s, e, p);
    } else {
      match e.step
      case Lists(_) => ListsEffect(s, e, x);
      case Log(_) => LogEffect(s, e, x);
      case Node(_) => NodeEffect(s, e, x);
    }
  }

  function SaidAll(s: Store, es: seq<Event>, p: ProfileId, x: SessionId): seq<Message>
    decreases |es|
  {
    if es == [] then []
    else SaidAll(s, es[..|es| - 1], p, x) + Said(RunEnd(s, es[..|es| - 1]), es[|es| - 1], p, x)
  }

  /** A session's log is what the calls of the run said in it, in order, and nothing else. */
  lemma {:induction false} LogExactly(es: seq<Event>, p: ProfileId, x: SessionId)
    ensures SessionOf(RunEnd(EmptyStore, es), p, x).messages == SaidAll(EmptyStore, es, p, x)
    decreases |es|
  {
    if es != [] {
      LogExactly(es[..|es| - 1], p, x);
      SessionExactly(RunEnd(EmptyStore, es[..|es| - 1]), es[|es| - 1], p, x);
    }
  }

  /** Reading a session returns it as it then is, and leaves everything else alone. */
  lemma ReadReturns(s: Store, p: ProfileId, x: SessionId, actor: Actor, now: int)
    ensures var (t, session) := ReadSession(s, p, x, actor, now);
      && session == SessionOf(t, p, x) && session.messages == SessionOf(s, p, x).messages && t == s.(sessions := t.sessions)
  {
  }
}
