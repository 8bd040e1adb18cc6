/**
 `HostedMCPRelayService` and one round of its watcher as they run: tables that are
 loaded, scanned in loops and reassigned, proved against the functions of RelayStore.
 */
module RelayService {
  import opened Options
  import opened Sequences
  import opened RelayStore
  import opened RelayRuns
  import RelayLinks
  import RelayWatcher

  class Relay {
    var tools: map<ProfileId, set<string>>
    var online: map<ProfileId, bool>
    var queue: seq<(ProfileId, RequestId)>
    var pending: map<ProfileId, seq<Request>>
    var acked: map<ProfileId, seq<Request>>
    var results: map<ProfileId, seq<Result>>
    var resultOrder: seq<ProfileId>
    var sessions: map<ProfileId, map<SessionId, Session>>

    ghost function Stored(): Store
      reads this
    {
      Store(tools, online, queue, pending, acked, results, resultOrder, sessions)
    }

    constructor ()
      ensures Stored() == EmptyStore
    {
      tools, online, queue, pending := map[], map[], [], map[];
      acked, results, resultOrder, sessions := map[], map[], [], map[];
    }

    method AppendSessionMessage(p: ProfileId, id: SessionId, message: Message, now: int)
      modifies this`sessions
      ensures Stored() == AppendMessage(old(Stored()), p, id, message, now)
    {
      var ours := if p in sessions then sessions[p] else map[];
      var session := if id in ours then ours[id] else Session([], 0, 0);
      session := session.(messages := session.messages + [message]);
      if message.local {
        session := session.(localSeen := now);
      } else {
        session := session.(remoteSeen := now);
      }
      sessions := sessions[p := ours[id := session]];
    }

    method SessionFor(p: ProfileId, id: SessionId, actor: Actor, now: int) returns (session: Session)
      modifies this`sessions
      ensures (Stored(), session) == ReadSession(old(Stored()), p, id, actor, now)
    {
      var ours := if p in sessions then sessions[p] else map[];
      session := if id in ours then ours[id] else Session([], 0, 0);
      session := Touch(session, actor, now);
      sessions := sessions[p := ours[id := session]];
    }

    method MarkSessionSeen(p: ProfileId, actor: Actor, now: int)
      modifies this`sessions
      ensures Stored() == MarkSessionsSeen(old(Stored()), p, actor, now)
    {
      if p !in sessions || sessions[p] == map[] {
        return;
      }
      var ours, rest := sessions[p], sessions[p].Keys;
      while rest != {}
        invariant rest <= ours.Keys == sessions[p].Keys
        invariant forall id | id in ours ::
          ours[id] == if id in rest then sessions[p][id] else Touch(sessions[p][id], actor, now)
        decreases |rest|
      {
        var id :| id in rest;
        ours := ours[id := Touch(ours[id], actor, now)];
        rest := rest - {id};
      }
      ghost var was := sessions[p];
      assert ours == map id | id in was :: Touch(was[id], actor, now);
      sessions := sessions[p := ours];
    }

    method EnqueueRemoteRequest(p: ProfileId, tool: string, session: Option<SessionId>, id: RequestId, now: int)
      returns (r: Reply<Request>)
      modifies this`pending, this`sessions
      ensures (Stored(), r) == Enqueue(old(Stored()), p, tool, session, id, now)
    {
      if p !in tools {
        return Raised(UnknownProfile);
      }
      if tool !in tools[p] {
        return Raised(ToolNotAllowed);
      }
      var request := Request(id, tool, ResolvedSession(session, p), false);
      pending := pending[p := ListOf(pending, p) + [request]];
      AppendSessionMessage(p, request.session, Message(Some(id), false, "tool_call"), now);
      r := Ok(request);
    }

    method LocalHeartbeat(p: ProfileId, authorized: bool, now: int) returns (r: Reply<seq<Request>>)
      modifies this`online, this`sessions
      ensures (Stored(), r) == Heartbeat(old(Stored()), p, authorized, now)
    {
      if !authorized {
        return Raised(Unauthorized);
      }
      if p in online {
        online := online[p := true];
      }
      var waiting := ListOf(pending, p);
      if waiting != [] {
        MarkSessionSeen(p, LocalActor, now);
      }
      r := Ok(waiting);
    }

    method AcknowledgeRequests(p: ProfileId, ids: set<RequestId>, authorized: bool) returns (r: Reply<nat>)
      modifies this`pending, this`acked
      ensures (Stored(), r) == Acknowledge(old(Stored()), p, ids, authorized)
    {
      if !authorized {
        return Raised(Unauthorized);
      }
      var current, remaining, moved := ListOf(pending, p), [], ListOf(acked, p);
      for i := 0 to |current|
        invariant remaining == Remaining(current[..i], ids)
        invariant moved == ListOf(acked, p) + Moved(current[..i], ids)
      {
        assert current[..i + 1][..i] == current[..i];
        if current[i].id in ids {
          moved := moved + [current[i].(acknowledged := true)];
        } else {
          remaining := remaining + [current[i]];
        }
      }
      assert current[..|current|] == current;
      pending := pending[p := remaining];
      acked := acked[p := moved];
      r := Ok(|remaining|);
    }

    method Record(p: ProfileId, id: RequestId, body: string, session: Option<SessionId>, authorized: bool, now: int)
      returns (r: Reply<()>)
      modifies this`results, this`resultOrder, this`sessions
      ensures (Stored(), r) == RecordResult(old(Stored()), p, id, body, session, authorized, now)
    {
      if !authorized {
        return Raised(Unauthorized);
      }
      if p !in results {
        resultOrder := resultOrder + [p];
      }
      results := results[p := ListOf(results, p) + [Result(id, body)]];
      AppendSessionMessage(p, ResolvedSession(session, p), Message(Some(id), true, "tool_result"), now);
      r := Ok(());
    }

    method Deliver(p: ProfileId, tool: string, id: RequestId, authorized: bool) returns (r: Reply<Delivery>)
      modifies this`queue
      ensures (Stored(), r) == QueueToolCall(old(Stored()), p, tool, id, authorized)
    {
      if p !in tools {
        return Raised(UnknownProfile);
      }
      if tool !in tools[p] {
        return Raised(ToolNotAllowed);
      }
      if p !in online || !online[p] {
        queue := queue + [(p, id)];
        return Ok(Queued);
      }
      r := Ok(if authorized then Delivered else Rejected);
    }

    method ResultForRequest(p: ProfileId, id: RequestId) returns (r: Option<Result>)
      ensures r == ResultFor(Stored(), p, id)
    {
      var ours := ListOf(results, p);
      for i := 0 to |ours|
        invariant FirstResult(ours, id) == FirstResult(ours[i..], id)
      {
        if ours[i].requestId == id {
          return Some(ours[i]);
        }
      }
      r := None;
    }

    method ResultForAnyProfile(id: RequestId) returns (r: Option<Result>)
      ensures r == UnscopedResult(Stored(), resultOrder, id)
    {
      for i := 0 to |resultOrder|
        invariant UnscopedResult(Stored(), resultOrder, id) == UnscopedResult(Stored(), resultOrder[i..], id)
      {
        r := ResultForRequest(resultOrder[i], id);
        if r.Some? {
          return;
        }
      }
      r := None;
    }

    /** The body of the watcher's loop: acknowledge, deliver, record. */
    method HandOver(p: ProfileId, request: Request, authorized: bool, deliverable: bool, now: int) returns (r: Reply<Delivery>)
      requires var waiting := ListOf(pending, p);
        waiting != [] && waiting[0].id == request.id && Distinct(Ids(waiting))
      modifies this
      ensures tools == old(tools) && online == old(online)
      ensures r.Ok? ==>
        && ListOf(pending, p) == old(ListOf(pending, p))[1..]
        && Ids(ListOf(acked, p)) == old(Ids(ListOf(acked, p))) + [request.id]
        && ListOf(results, p) == old(ListOf(results, p)) + [Answer(online, p, request.id, deliverable)]
      ensures r.Raised? <==> !Servable(tools, p, request, authorized)
    {
      ghost var waiting, done := ListOf(pending, p), ListOf(acked, p);
      RelayWatcher.FrontAcknowledged(waiting, request.id);
      IdsConcat(done, Moved(waiting, {request.id}));
      var acknowledged := AcknowledgeRequests(p, {request.id}, authorized);
      if acknowledged.Raised? {
        return Raised(acknowledged.error);
      }
      r := Deliver(p, request.tool, request.id, deliverable);
      if r.Raised? {
        return;
      }
      ghost var delivered := Stored();
      var body := Rendered(r.value);
      var recorded := Record(p, request.id, body, Some(request.session), authorized, now);
      RecordKeepsQueues(delivered, p, request.id, body, Some(request.session), authorized, now);
      RecordGrows(delivered, p, request.id, body, Some(request.session), authorized, now);
    }

    /** The watcher's loop over the snapshot of a heartbeat, undisturbed; false when a call raised. */
    method ServeBatch(p: ProfileId, batch: seq<Request>, authorized: bool, deliverable: RequestId -> bool, now: int) returns (ok: bool)
      requires batch == ListOf(pending, p) && Distinct(Ids(batch))
      modifies this
      ensures ok ==>
        && ListOf(pending, p) == []
        && Ids(ListOf(acked, p)) == old(Ids(ListOf(acked, p))) + Ids(batch)
        && ListOf(results, p) == old(ListOf(results, p)) + Answers(old(online), p, batch, deliverable)
      ensures ok <==> forall q | q in batch :: Servable(old(tools), p, q, authorized)
    {
      ghost var start := Stored();
      ServedNone(start, p, batch, deliverable);
      for i := 0 to |batch|
        invariant Served(start, Stored(), p, batch, deliverable, i)
        invariant forall j | 0 <= j < i :: Servable(start.tools, p, batch[j], authorized)
      {
        FrontOfRest(batch, i);
        ghost var before := Stored();
        var delivery := HandOver(p, batch[i], authorized, deliverable(batch[i].id), now);
        if delivery.Raised? {
          assert batch[i] in batch;
          return false;
        }
        ServedOneMore(start, before, Stored(), p, batch, deliverable, i);
      }
      ServedAll(start, Stored(), p, batch, deliverable);
      ok := true;
    }

    /**
     One undisturbed round of the watcher. Unless a call is refused, everything that was pending
     is acknowledged in order, nothing is pending any more, and each request has a result that says how its delivery
     went: a registered link has come online with the heartbeat, so that nothing is queued for it.
     */
    method WatchRound(p: ProfileId, authorized: bool, deliverable: RequestId -> bool, now: int) returns (ok: bool)
      requires Distinct(Ids(ListOf(pending, p)))
      modifies this
      ensures ok ==>
        && ListOf(pending, p) == []
        && Ids(ListOf(acked, p)) == old(Ids(ListOf(acked, p))) + old(Ids(ListOf(pending, p)))
        && (forall q | q in old(ListOf(pending, p)) :: ResultFor(Stored(), p, q.id).Some?)
        && Reports(ListOf(results, p), old(ListOf(results, p)), p in old(online), old(ListOf(pending, p)), deliverable)
      ensures ok <==> authorized && forall q | q in old(ListOf(pending, p)) :: Servable(old(tools), p, q, authorized)
    {
      LogKeepsQueues(Stored(), p, HeartbeatStep(authorized), now);
      RelayLinks.HeartbeatExactly(Stored(), p, authorized, now);
      var heartbeat := LocalHeartbeat(p, authorized, now);
      if heartbeat.Raised? {
        return false;
      }
      AnswersFound(ListOf(results, p), online, p, heartbeat.value, deliverable);
      AnswersReport(ListOf(results, p), online, p, heartbeat.value, deliverable);
      ok := ServeBatch(p, heartbeat.value, authorized, deliverable, now);
    }
  }

  /** None of the three calls for this request is refused. */
  predicate Servable(tools: map<ProfileId, set<string>>, p: ProfileId, request: Request, authorized: bool) {
    authorized && p in tools && request.tool in tools[p]
  }

  /** The loop's progress: the first `i` requests are acknowledged and answered, the rest still wait. */
  ghost predicate Served(start: Store, s: Store, p: ProfileId, batch: seq<Request>, deliverable: RequestId -> bool, i: nat) {
    && i <= |batch|
    && s.tools == start.tools && s.online == start.online
    && ListOf(s.pending, p) == batch[i..]
    && Ids(ListOf(s.acked, p)) == Ids(ListOf(start.acked, p)) + Ids(batch[..i])
    && ListOf(s.results, p) == ListOf(start.results, p) + Answers(start.online, p, batch[..i], deliverable)
  }

  lemma ServedNone(s: Store, p: ProfileId, batch: seq<Request>, deliverable: RequestId -> bool)
    requires batch == ListOf(s.pending, p)
    ensures Served(s, s, p, batch, deliverable, 0)
  {
  }

  lemma ServedOneMore(start: Store, s: Store, t: Store, p: ProfileId, batch: seq<Request>, deliverable: RequestId -> bool, i: nat)
    requires i < |batch| && Served(start, s, p, batch, deliverable, i) && t.tools == s.tools && t.online == s.online
    requires ListOf(t.pending, p) == ListOf(s.pending, p)[1..]
    requires Ids(ListOf(t.acked, p)) == Ids(ListOf(s.acked, p)) + [batch[i].id]
    requires ListOf(t.results, p) == ListOf(s.results, p) + [Answer(s.online, p, batch[i].id, deliverable(batch[i].id))]
    ensures Served(start, t, p, batch, deliverable, i + 1)
  {
    assert Ids(batch[..i + 1]) == Ids(batch[..i]) + [batch[i].id];
    assert Answers(start.online, p, batch[..i + 1], deliverable)
      == Answers(start.online, p, batch[..i], deliverable) + [Answer(start.online, p, batch[i].id, deliverable(batch[i].id))];
  }

  lemma ServedAll(start: Store, s: Store, p: ProfileId, batch: seq<Request>, deliverable: RequestId -> bool)
    requires Served(start, s, p, batch, deliverable, |batch|)
    ensures ListOf(s.pending, p) == []
    ensures Ids(ListOf(s.acked, p)) == Ids(ListOf(start.acked, p)) + Ids(batch)
    ensures ListOf(s.results, p) == ListOf(start.results, p) + Answers(start.online, p, batch, deliverable)
  {
    assert batch[..|batch|] == batch;
  }

  /** The results that a round records for these requests. */
  ghost function Answers(online: map<ProfileId, bool>, p: ProfileId, batch: seq<Request>, deliverable: RequestId -> bool): seq<Result> {
    seq(|batch|, i requires 0 <= i < |batch| => Answer(online, p, batch[i].id, deliverable(batch[i].id)))
  }

  /** What is recorded for a request: how its delivery went. */
  function Answer(online: map<ProfileId, bool>, p: ProfileId, id: RequestId, deliverable: bool): Result {
    Result(id, Rendered(if p !in online || !online[p] then Queued else if deliverable then Delivered else Rejected))
  }

  function Rendered(delivery: Delivery): string {
    match delivery case Queued => "queued" case Rejected => "rejected" case Delivered => "delivered"
  }

  /** One result more for each request of the batch, which says how its delivery to the linked node, if any, went. */
  ghost predicate Reports(after: seq<Result>, before: seq<Result>, linked: bool, batch: seq<Request>, deliverable: RequestId -> bool) {
    && |after| == |before| + |batch| && after[..|before|] == before
    && forall i | 0 <= i < |batch| ::
         after[|before| + i]
         == Result(batch[i].id, if !linked then "queued" else if deliverable(batch[i].id) then "delivered" else "rejected")
  }

  lemma AnswersReport(was: seq<Result>, online: map<ProfileId, bool>, p: ProfileId, batch: seq<Request>, deliverable: RequestId -> bool)
    requires p in online ==> online[p]
    ensures Reports(was + Answers(online, p, batch, deliverable), was, p in online, batch, deliverable)
  {
    var after := was + Answers(online, p, batch, deliverable);
    forall i | 0 <= i < |batch| ensures after[|was| + i] == Answer(online, p, batch[i].id, deliverable(batch[i].id)) {
    }
  }

  lemma AnswersFound(was: seq<Result>, online: map<ProfileId, bool>, p: ProfileId, batch: seq<Request>, deliverable: RequestId -> bool)
    ensures forall q | q in batch :: FirstResult(was + Answers(online, p, batch, deliverable), q.id).Some?
  {
    var answers := Answers(online, p, batch, deliverable);
    forall i | 0 <= i < |batch| ensures FirstResult(was + answers, batch[i].id).Some? {
      assert answers[i] == Answer(online, p, batch[i].id, deliverable(batch[i].id));
      assert (was + answers)[|was| + i] == answers[i];
    }
  }

  lemma FrontOfRest(batch: seq<Request>, i: nat)
    requires i < |batch| && Distinct(Ids(batch))
    ensures batch[i..][0] == batch[i] && batch[i..][1..] == batch[i + 1..] && Distinct(Ids(batch[i..]))
  {
    forall j, k | 0 <= j < k < |batch[i..]| ensures Ids(batch[i..])[j] != Ids(batch[i..])[k] {
      assert Ids(batch)[i + j] != Ids(batch)[i + k];
    }
  }
}
