/**
 The local link of a profile over whole runs of the relay: when it is online, what a tool
 call to it is answered, and what becomes of the calls that are queued.
 */
module RelayLinks {
  import opened Options
  import opened RelayStore
  import opened RelayRuns

  // ---------- the calls that matter ----------

  predicate RegistersLink(e: Event, p: ProfileId) {
    e.profile == p && e.step.Node? && e.step.node.RegisterLink?
  }

  predicate RegistersProfile(e: Event, p: ProfileId) {
    e.profile == p && e.step.Node? && e.step.node.RegisterProfile?
  }

  /** A heartbeat that the account registry authorizes. */
  predicate Beats(e: Event, p: ProfileId) {
    e.profile == p && e.step.Log? && e.step.log == HeartbeatStep(true)
  }

  /** The link was registered by this event and not again. */
  predicate LinkFrom(es: seq<Event>, p: ProfileId, i: nat) {
    i < |es| && RegistersLink(es[i], p) && forall k | i < k < |es| :: !RegistersLink(es[k], p)
  }

  predicate ProfileFrom(es: seq<Event>, p: ProfileId, i: nat) {
    i < |es| && RegistersProfile(es[i], p) && forall k | i < k < |es| :: !RegistersProfile(es[k], p)
  }

  /** The last registration said online, or a heartbeat came after it. */
  ghost predicate Online(es: seq<Event>, p: ProfileId) {
    exists i: nat :: LinkFrom(es, p, i) && (es[i].step.node.online || exists j :: i < j < |es| && Beats(es[j], p))
  }

  /** The last registration of the profile allows the tool. */
  ghost predicate Allows(es: seq<Event>, p: ProfileId, tool: string) {
    exists i: nat :: ProfileFrom(es, p, i) && tool in es[i].step.node.tools
  }

  // ---------- one call ----------

  lemma MarkWritesSessions(s: Store, p: ProfileId, actor: Actor, now: int)
    ensures var t := MarkSessionsSeen(s, p, actor, now); t.tools == s.tools && t.queue == s.queue && t.online == s.online
  {
  }

  /** An authorized heartbeat returns what is pending and brings a registered link online. */
  lemma HeartbeatExactly(s: Store, p: ProfileId, authorized: bool, now: int)
    ensures var (t, r) := Heartbeat(s, p, authorized, now);
      && r == (if authorized then Ok(ListOf(s.pending, p)) else Raised(Unauthorized))
      && (!authorized ==> t == s)
      && t.tools == s.tools && t.queue == s.queue
      && t.online == if authorized && p in s.online then s.online[p := true] else s.online
  {
    if authorized {
      MarkWritesSessions(if p in s.online then s.(online := s.online[p := true]) else s, p, LocalActor, now);
    }
  }

  lemma LogWrites(s: Store, p: ProfileId, step: LogStep, now: int)
    ensures var t := ApplyLog(s, p, step, now);
      && t.tools == s.tools && t.queue == s.queue
      && t.online == if step == HeartbeatStep(true) && p in s.online then s.online[p := true] else s.online
  {
    match step
    case HeartbeatStep(ok) => HeartbeatExactly(s, p, ok, now);
    case ReadStep(_, _) =>
    case AppendStep(_, _) =>
  }

  lemma ListsWrite(s: Store, p: ProfileId, step: ListStep, now: int)
    ensures var t := ApplyLists(s, p, step, now); t.tools == s.tools && t.queue == s.queue && t.online == s.online
  {
  }

  /** Which calls write the link's status, the allowed tools and the offline queue. */
  lemma StepWrites(s: Store, e: Event)
    ensures var t, p := Apply(s, e), e.profile;
      && t.online == (if RegistersLink(e, p) then s.online[p := e.step.node.online]
                      else if Beats(e, p) && p in s.online then s.online[p := true] else s.online)
      && t.tools == (if RegistersProfile(e, p) then s.tools[p := e.step.node.tools] else s.tools)
      && t.queue == s.queue + QueuedBy(s, e)
  {
    match e.step
    case Lists(step) => ListsWrite(s, e.profile, step, e.now);
    case Log(step) => LogWrites(s, e.profile, step, e.now);
    case Node(step) =>
  }

  /** A call that finds its profile, its tool and no online link goes to the offline queue. */
  function QueuedBy(s: Store, e: Event): seq<(ProfileId, RequestId)> {
    if && e.step.Node? && e.step.node.QueueStep?
       && e.profile in s.tools && e.step.node.tool in s.tools[e.profile]
       && !(e.profile in s.online && s.online[e.profile])
    then [(e.profile, e.step.node.id)] else []
  }

  // ---------- runs ----------

  /** After any run a link is known exactly when it was registered, and online exactly by its last registration or a heartbeat since. */
  lemma {:induction false} OnlineExactly(es: seq<Event>, p: ProfileId)
    ensures var s := RunEnd(EmptyStore, es);
      && (p in s.online <==> exists i :: 0 <= i < |es| && RegistersLink(es[i], p))
      && (p in s.online && s.online[p] <==> Online(es, p))
  {
    if es != [] {
      var n := |es| - 1;
      OnlineExactly(es[..n], p);
      StepWrites(RunEnd(EmptyStore, es[..n]), es[n]);
      OnlineStep(es, p);
    }
  }

  lemma OnlineStep(es: seq<Event>, p: ProfileId)
    requires es != []
    ensures var n := |es| - 1;
      && ((exists i :: 0 <= i < |es| && RegistersLink(es[i], p))
          <==> (exists i :: 0 <= i < n && RegistersLink(es[..n][i], p)) || RegistersLink(es[n], p))
      && (Online(es, p) <==>
            if RegistersLink(es[n], p) then es[n].step.node.online
            else Online(es[..n], p) || (Beats(es[n], p) && exists i :: 0 <= i < n && RegistersLink(es[..n][i], p)))
  {
    var n := |es| - 1;
    forall i | 0 <= i < n ensures RegistersLink(es[i], p) <==> RegistersLink(es[..n][i], p) {
    }
    if RegistersLink(es[n], p) {
      assert LinkFrom(es, p, n);
    } else {
      forall i: nat ensures LinkFrom(es, p, i) <==> LinkFrom(es[..n], p, i) {
      }
      forall i: nat | LinkFrom(es, p, i)
        ensures (exists j :: i < j < |es| && Beats(es[j], p)) <==> (exists j :: i < j < n && Beats(es[..n][j], p)) || Beats(es[n], p)
      {
        if j :| i < j < |es| && Beats(es[j], p) {
          assert j < n ==> Beats(es[..n][j], p);
        }
        if j :| i < j < n && Beats(es[..n][j], p) {
          assert Beats(es[j], p);
        }
      }
      if exists i :: 0 <= i < n && RegistersLink(es[..n][i], p) {
        var i := LastLink(es[..n], p);
      }
    }
  }

  lemma {:induction false} LastLink(es: seq<Event>, p: ProfileId) returns (i: nat)
    requires exists k :: 0 <= k < |es| && RegistersLink(es[k], p)
    ensures LinkFrom(es, p, i)
  {
    var n := |es| - 1;
    if RegistersLink(es[n], p) {
      i := n;
    } else {
      var k :| 0 <= k < |es| && RegistersLink(es[k], p);
      assert RegistersLink(es[..n][k], p);
      i := LastLink(es[..n], p);
    }
  }

  lemma {:induction false} AllowedExactly(es: seq<Event>, p: ProfileId, tool: string)
    ensures var s := RunEnd(EmptyStore, es);
      && (p in s.tools <==> exists i :: 0 <= i < |es| && RegistersProfile(es[i], p))
      && (p in s.tools && tool in s.tools[p] <==> Allows(es, p, tool))
  {
    if es != [] {
      var n := |es| - 1;
      AllowedExactly(es[..n], p, tool);
      StepWrites(RunEnd(EmptyStore, es[..n]), es[n]);
      AllowsStep(es, p, tool);
    }
  }

  lemma AllowsStep(es: seq<Event>, p: ProfileId, tool: string)
    requires es != []
    ensures var n := |es| - 1;
      && ((exists i :: 0 <= i < |es| && RegistersProfile(es[i], p))
          <==> (exists i :: 0 <= i < n && RegistersProfile(es[..n][i], p)) || RegistersProfile(es[n], p))
      && (Allows(es, p, tool) <==> if RegistersProfile(es[n], p) then tool in es[n].step.node.tools else Allows(es[..n], p, tool))
  {
    var n := |es| - 1;
    forall i | 0 <= i < n ensures RegistersProfile(es[i], p) <==> RegistersProfile(es[..n][i], p) {
    }
    if RegistersProfile(es[n], p) {
      assert ProfileFrom(es, p, n);
    } else {
      forall i: nat ensures ProfileFrom(es, p, i) <==> ProfileFrom(es[..n], p, i) {
      }
    }
  }

  /**
   What a tool call is answered after any run: it is refused without the profile or the tool, queued while the
   link is not online, and otherwise delivered or rejected as the account registry decides.
   */
  lemma CallExactly(es: seq<Event>, p: ProfileId, tool: string, id: RequestId, authorized: bool)
    ensures var r := QueueToolCall(RunEnd(EmptyStore, es), p, tool, id, authorized).1;
      && (r == Raised(UnknownProfile) <==> forall i | 0 <= i < |es| :: !RegistersProfile(es[i], p))
      && (r == Raised(ToolNotAllowed) <==> (exists i :: 0 <= i < |es| && RegistersProfile(es[i], p)) && !Allows(es, p, tool))
      && (r == Ok(Queued) <==> Allows(es, p, tool) && !Online(es, p))
      && (r == Ok(Delivered) <==> Allows(es, p, tool) && Online(es, p) && authorized)
      && (r == Ok(Rejected) <==> Allows(es, p, tool) && Online(es, p) && !authorized)
  {
    OnlineExactly(es, p);
    AllowedExactly(es, p, tool);
  }

  /** The queued calls of a run, in their order. */
  function QueuedCalls(s: Store, es: seq<Event>): seq<(ProfileId, RequestId)>
    decreases |es|
  {
    if es == [] then []
    else QueuedCalls(s, es[..|es| - 1]) + QueuedBy(RunEnd(s, es[..|es| - 1]), es[|es| - 1])
  }

  /** The offline queue is the list of all calls ever queued: nothing leaves it, so a queued call is never delivered from it. */
  lemma {:induction false} QueueExactly(s: Store, es: seq<Event>)
    ensures RunEnd(s, es).queue == s.queue + QueuedCalls(s, es)
    decreases |es|
  {
    if es != [] {
      QueueExactly(s, es[..|es| - 1]);
      StepWrites(RunEnd(s, es[..|es| - 1]), es[|es| - 1]);
    }
  }

  /** After an authorized heartbeat of a registered link no call of its profile is queued until it is registered again. */
  lemma BeatEndsQueueing(es: seq<Event>, more: seq<Event>, now: int, p: ProfileId, tool: string, id: RequestId, authorized: bool)
    requires exists i :: 0 <= i < |es| && RegistersLink(es[i], p)
    requires forall k | 0 <= k < |more| :: !RegistersLink(more[k], p)
    ensures var run := es + [Event(p, now, Log(HeartbeatStep(true)))] + more;
      QueueToolCall(RunEnd(EmptyStore, run), p, tool, id, authorized).1 != Ok(Queued)
  {
    var beat := Event(p, now, Log(HeartbeatStep(true)));
    var run := es + [beat] + more;
    var i := LastLink(es, p);
    assert run[i] == es[i] && run[|es|] == beat && Beats(run[|es|], p);
    forall k | i < k < |run| ensures !RegistersLink(run[k], p) {
      assert run[k] == if k < |es| then es[k] else if k == |es| then beat else more[k - |es| - 1];
    }
    assert LinkFrom(run, p, i);
    CallExactly(run, p, tool, id, authorized);
  }

  // ---------- what the other calls answer ----------

  /** An accepted request is the last pending one, unacknowledged, in the session it names or its profile's own. */
  lemma EnqueueExactly(s: Store, p: ProfileId, tool: string, session: Option<SessionId>, id: RequestId, now: int)
    ensures var (t, r) := Enqueue(s, p, tool, session, id, now);
      && (r == Raised(UnknownProfile) <==> p !in s.tools)
      && (r == Raised(ToolNotAllowed) <==> p in s.tools && tool !in s.tools[p])
      && (r.Ok? <==> p in s.tools && tool in s.tools[p])
      && (r.Raised? ==> t == s)
      && (r.Ok? ==>
            && r.value == Request(id, tool, match session { case Some(x) => x case None => OwnSession(p) }, false)
            && ListOf(t.pending, p) == ListOf(s.pending, p) + [r.value])
  {
  }

  /** An acknowledgement answers how many requests are still pending; an unauthorized one changes nothing. */
  lemma AcknowledgeExactly(s: Store, p: ProfileId, ids: set<RequestId>, authorized: bool)
    ensures var (t, r) := Acknowledge(s, p, ids, authorized);
      if authorized then r == Ok(|ListOf(t.pending, p)|) else t == s && r == Raised(Unauthorized)
  {
  }

  lemma RecordExactly(s: Store, p: ProfileId, id: RequestId, body: string, session: Option<SessionId>, authorized: bool, now: int)
    ensures var (t, r) := RecordResult(s, p, id, body, session, authorized, now);
      if authorized then r == Ok(()) && ListOf(t.results, p) == ListOf(s.results, p) + [Result(id, body)]
      else t == s && r == Raised(Unauthorized)
  {
  }

  /** A lookup returns the earliest result that was recorded for the request. */
  lemma {:induction false} LookupExactly(results: seq<Result>, id: RequestId, k: nat)
    requires k < |results| && results[k].requestId == id && forall j | 0 <= j < k :: results[j].requestId != id
    ensures FirstResult(results, id) == Some(results[k])
  {
    if k > 0 {
      assert results[0].requestId != id;
      LookupExactly(results[1..], id, k - 1);
    }
  }
}
