/**
 The hosted relay's document (astrata/mcp/relay.py) and what each operation does to
 it. Tool arguments, metadata and creation timestamps are left out, and the account
 registry's answer to an authorisation question is a parameter.
 */
module RelayStore {
  import opened Options

  type ProfileId = nat
  type RequestId = nat

  /** A session identifier: the profile's own `session:<profile>`, or any other text. */
  datatype SessionId = OwnSession(profile: ProfileId) | NamedSession(name: nat)

  datatype Request = Request(id: RequestId, tool: string, session: SessionId, acknowledged: bool)
  datatype Result = Result(requestId: RequestId, body: string)
  datatype Message = Message(requestId: Option<RequestId>, local: bool, kind: string)
  datatype Session = Session(messages: seq<Message>, localSeen: int, remoteSeen: int)

  /** `resultOrder` is the insertion order of the result table, which an unscoped lookup follows. */
  datatype Store = Store(
    tools: map<ProfileId, set<string>>,
    online: map<ProfileId, bool>,
    queue: seq<(ProfileId, RequestId)>,
    pending: map<ProfileId, seq<Request>>,
    acked: map<ProfileId, seq<Request>>,
    results: map<ProfileId, seq<Result>>,
    resultOrder: seq<ProfileId>,
    sessions: map<ProfileId, map<SessionId, Session>>)

  const EmptyStore := Store(map[], map[], [], map[], map[], map[], [], map[])

  /** `KeyError` and the two uses of `PermissionError`. */
  datatype Error = UnknownProfile | ToolNotAllowed | Unauthorized
  datatype Reply<+T> = Ok(value: T) | Raised(error: Error)

  /** `table.get(profile) or []` */
  function ListOf<T>(table: map<ProfileId, seq<T>>, p: ProfileId): seq<T> {
    if p in table then table[p] else []
  }

  function Ids(requests: seq<Request>): seq<RequestId> {
    seq(|requests|, i requires 0 <= i < |requests| => requests[i].id)
  }

  function SessionsOf(s: Store, p: ProfileId): map<SessionId, Session> {
    if p in s.sessions then s.sessions[p] else map[]
  }

  function SessionOf(s: Store, p: ProfileId, id: SessionId): Session {
    if id in SessionsOf(s, p) then SessionsOf(s, p)[id] else Session([], 0, 0)
  }

  // ---------- sessions ----------

  function PutSession(s: Store, p: ProfileId, id: SessionId, session: Session): Store {
    s.(sessions := s.sessions[p := SessionsOf(s, p)[id := session]])
  }

  function AppendMessage(s: Store, p: ProfileId, id: SessionId, message: Message, now: int): Store {
    var before := SessionOf(s, p, id);
    PutSession(s, p, id, Session(before.messages + [message],
                                 if message.local then now else before.localSeen,
                                 if message.local then before.remoteSeen else now))
  }

  datatype Actor = LocalActor | RemoteActor | OtherActor

  function Touch(session: Session, actor: Actor, now: int): Session {
    match actor
    case LocalActor => session.(localSeen := now)
    case RemoteActor => session.(remoteSeen := now)
    case OtherActor => session
  }

  /** Reading a session stores it: a missing one is created, and the reader is marked as seen. */
  function ReadSession(s: Store, p: ProfileId, id: SessionId, actor: Actor, now: int): (Store, Session) {
    var session := Touch(SessionOf(s, p, id), actor, now);
    (PutSession(s, p, id, session), session)
  }

  function MarkSessionsSeen(s: Store, p: ProfileId, actor: Actor, now: int): Store {
    if SessionsOf(s, p) == map[] then s
    else s.(sessions := s.sessions[p := map id | id in SessionsOf(s, p) :: Touch(SessionsOf(s, p)[id], actor, now)])
  }

  // ---------- the queue protocol ----------

  function ResolvedSession(asked: Option<SessionId>, p: ProfileId): SessionId {
    if asked.Some? then asked.value else OwnSession(p)
  }

  function Enqueue(s: Store, p: ProfileId, tool: string, session: Option<SessionId>, id: RequestId, now: int): (Store, Reply<Request>) {
    if p !in s.tools then (s, Raised(UnknownProfile))
    else if tool !in s.tools[p] then (s, Raised(ToolNotAllowed))
    else
      var request := Request(id, tool, ResolvedSession(session, p), false);
      var s1 := s.(pending := s.pending[p := ListOf(s.pending, p) + [request]]);
      (AppendMessage(s1, p, request.session, Message(Some(id), false, "tool_call"), now), Ok(request))
  }

  function Heartbeat(s: Store, p: ProfileId, authorized: bool, now: int): (Store, Reply<seq<Request>>) {
    if !authorized then (s, Raised(Unauthorized))
    else
      var s1 := if p in s.online then s.(online := s.online[p := true]) else s;
      var pending := ListOf(s.pending, p);
      (if pending != [] then MarkSessionsSeen(s1, p, LocalActor, now) else s1, Ok(pending))
  }

  /** The pending requests an acknowledgement leaves behind, and those it moves. */
  function Remaining(requests: seq<Request>, ids: set<RequestId>): seq<Request> {
    if requests == [] then []
    else
      var last := requests[|requests| - 1];
      Remaining(requests[..|requests| - 1], ids) + (if last.id in ids then [] else [last])
  }

  function Moved(requests: seq<Request>, ids: set<RequestId>): seq<Request> {
    if requests == [] then []
    else
      var last := requests[|requests| - 1];
      Moved(requests[..|requests| - 1], ids) + (if last.id in ids then [last.(acknowledged := true)] else [])
  }

  function Acknowledge(s: Store, p: ProfileId, ids: set<RequestId>, authorized: bool): (Store, Reply<nat>) {
    if !authorized then (s, Raised(Unauthorized))
    else
      var current := ListOf(s.pending, p);
      (s.(pending := s.pending[p := Remaining(current, ids)],
          acked := s.acked[p := ListOf(s.acked, p) + Moved(current, ids)]),
       Ok(|Remaining(current, ids)|))
  }

  function RecordResult(s: Store, p: ProfileId, id: RequestId, body: string, session: Option<SessionId>, authorized: bool, now: int)
    : (Store, Reply<()>)
  {
    if !authorized then (s, Raised(Unauthorized))
    else
      var s1 := s.(results := s.results[p := ListOf(s.results, p) + [Result(id, body)]],
                   resultOrder := if p in s.results then s.resultOrder else s.resultOrder + [p]);
      (AppendMessage(s1, p, ResolvedSession(session, p), Message(Some(id), true, "tool_result"), now),
       Ok(()))
  }

  datatype Delivery = Queued | Rejected | Delivered

  /** Hands a tool call to the local node, or stores it while the node is offline. */
  function QueueToolCall(s: Store, p: ProfileId, tool: string, id: RequestId, authorized: bool): (Store, Reply<Delivery>) {
    if p !in s.tools then (s, Raised(UnknownProfile))
    else if tool !in s.tools[p] then (s, Raised(ToolNotAllowed))
    else if p !in s.online || !s.online[p] then (s.(queue := s.queue + [(p, id)]), Ok(Queued))
    else (s, Ok(if authorized then Delivered else Rejected))
  }

  // ---------- result lookup ----------

  function FirstResult(results: seq<Result>, id: RequestId): (r: Option<Result>)
    ensures r.Some? <==> exists i :: 0 <= i < |results| && results[i].requestId == id
    ensures r.Some? ==> r.value in results && r.value.requestId == id
  {
    if results == [] then None
    else if results[0].requestId == id then Some(results[0])
    else
      var r := FirstResult(results[1..], id);
      assert forall i | 0 < i < |results| :: results[i] == results[1..][i - 1];
      r
  }

  /** `result_for_request` with a profile. */
  function ResultFor(s: Store, p: ProfileId, id: RequestId): Option<Result> {
    FirstResult(ListOf(s.results, p), id)
  }

  /** `result_for_request` without a profile: the first profile, in table order, that has one. */
  function UnscopedResult(s: Store, order: seq<ProfileId>, id: RequestId): Option<Result> {
    if order == [] then None
    else if ResultFor(s, order[0], id).Some? then ResultFor(s, order[0], id)
    else UnscopedResult(s, order[1..], id)
  }
}
