/**
 The relay watcher (`_cmd_mcp_relay_watch` in astrata/main.py) against the relay: a
 heartbeat takes a snapshot of the pending requests, then each is acknowledged,
 delivered and recorded, while remote callers keep enqueueing and the watcher may
 crash between any two calls and start over.
 */
module RelayWatcher {
  import opened Options
  import opened Sequences
  import opened RelayStore
  import opened RelayRuns
  import RelayLinks

  datatype Phase = ToAcknowledge | ToDeliver | ToRecord

  /** Where the watcher stands: not running, or at request `done` of its snapshot. */
  datatype Watcher = Down | Round(batch: seq<Request>, done: nat, phase: Phase)

  /**
   The store, the watcher of one profile, and what happened so far: the requests enqueued, those delivered
   (the relay accepted the call, whatever it answered), and those lost because the watcher ended between
   their acknowledgement and their delivery.
   */
  datatype System = System(
    store: Store, watcher: Watcher,
    enqueued: seq<RequestId>, delivered: seq<RequestId>, lost: seq<RequestId>)

  datatype Move =
    | Remote(event: Event)
    | Beat(now: int)
    | AcknowledgeNext
    | DeliverNext(authorized: bool)
    | RecordNext(body: string, now: int)
    | Crash

  /** No one else acknowledges for the watched profile, and minted request ids are new. */
  ghost predicate Enabled(sys: System, w: ProfileId, move: Move) {
    match move
    case Remote(e) =>
      && !(e.profile == w && e.step.Lists? && e.step.lists.AcknowledgeStep?)
      && (Enqueues(e, w) ==> e.step.lists.newId !in sys.enqueued)
    case Beat(_) => sys.watcher.Down? || sys.watcher.done == |sys.watcher.batch|
    case AcknowledgeNext => At(sys.watcher, ToAcknowledge)
    case DeliverNext(_) => At(sys.watcher, ToDeliver)
    case RecordNext(_, _) => At(sys.watcher, ToRecord)
    case Crash => sys.watcher.Round?
  }

  predicate At(watcher: Watcher, phase: Phase) {
    watcher.Round? && watcher.done < |watcher.batch| && watcher.phase == phase
  }

  /** The request that was acknowledged last, while its delivery is still due. */
  function Due(watcher: Watcher): seq<RequestId> {
    if At(watcher, ToDeliver) then [watcher.batch[watcher.done].id] else []
  }

  /** A refused call raises in the watcher's loop, which is a crash like any other. */
  ghost function Next(sys: System, w: ProfileId, move: Move): System
    requires Enabled(sys, w, move)
  {
    match move
    case Remote(e) => sys.(store := Apply(sys.store, e), enqueued := sys.enqueued + Enqueued(sys.store, e, w))
    case Beat(now) =>
      var (store, reply) := Heartbeat(sys.store, w, true, now);
      sys.(store := store, watcher := Round(reply.value, 0, ToAcknowledge))
    case AcknowledgeNext =>
      var request := sys.watcher.batch[sys.watcher.done];
      sys.(store := Acknowledge(sys.store, w, {request.id}, true).0, watcher := sys.watcher.(phase := ToDeliver))
    case DeliverNext(authorized) =>
      var request := sys.watcher.batch[sys.watcher.done];
      var (store, reply) := QueueToolCall(sys.store, w, request.tool, request.id, authorized);
      if reply.Ok? then
        sys.(store := store, watcher := sys.watcher.(phase := ToRecord), delivered := sys.delivered + [request.id])
      else sys.(watcher := Down, lost := sys.lost + [request.id])
    case RecordNext(body, now) =>
      var request := sys.watcher.batch[sys.watcher.done];
      sys.(store := RecordResult(sys.store, w, request.id, body, Some(request.session), true, now).0,
           watcher := sys.watcher.(done := sys.watcher.done + 1, phase := ToAcknowledge))
    case Crash => sys.(watcher := Down, lost := sys.lost + Due(sys.watcher))
  }

  ghost function Init(): System {
    System(EmptyStore, Down, [], [], [])
  }

  ghost predicate ValidRun(sys: System, w: ProfileId, moves: seq<Move>)
    decreases |moves|
  {
    moves == [] || (Enabled(sys, w, moves[0]) && ValidRun(Next(sys, w, moves[0]), w, moves[1..]))
  }

  ghost function RunEnd(sys: System, w: ProfileId, moves: seq<Move>): System
    requires ValidRun(sys, w, moves)
    decreases |moves|
  {
    if moves == [] then sys else RunEnd(Next(sys, w, moves[0]), w, moves[1..])
  }

  // ---------- the invariant ----------

  /** The acknowledged ids, but for the one whose delivery is still due. */
  ghost function Settled(sys: System, w: ProfileId): seq<RequestId> {
    var acked := Ids(ListOf(sys.store.acked, w));
    if sys.watcher.Round? && sys.watcher.phase == ToDeliver && acked != [] then acked[..|acked| - 1] else acked
  }

  ghost predicate QueueInOrder(sys: System, w: ProfileId) {
    && Distinct(sys.enqueued)
    && Ids(ListOf(sys.store.acked, w)) + Ids(ListOf(sys.store.pending, w)) == sys.enqueued
  }

  /** What is left of the snapshot is still at the front of the pending list. */
  ghost predicate SnapshotAhead(sys: System, w: ProfileId) {
    sys.watcher.Round? ==>
      var Round(batch, done, phase) := sys.watcher;
      var acked, pending := Ids(ListOf(sys.store.acked, w)), Ids(ListOf(sys.store.pending, w));
      && done <= |batch|
      && (phase == ToAcknowledge ==> Ids(batch[done..]) <= pending)
      && (phase != ToAcknowledge ==>
            done < |batch| && acked != [] && acked[|acked| - 1] == batch[done].id && Ids(batch[done + 1..]) <= pending)
  }

  ghost predicate DeliveredSettled(sys: System, w: ProfileId) {
    && Subsequence(sys.delivered, Settled(sys, w))
    && multiset(sys.delivered) + multiset(sys.lost) == multiset(Settled(sys, w))
  }

  ghost predicate DoneHasResults(sys: System, w: ProfileId) {
    sys.watcher.Round? ==>
      forall i | 0 <= i < sys.watcher.done && i < |sys.watcher.batch| ::
        ResultFor(sys.store, w, sys.watcher.batch[i].id).Some?
  }

  ghost predicate Inv(sys: System, w: ProfileId) {
    QueueInOrder(sys, w) && SnapshotAhead(sys, w) && DeliveredSettled(sys, w) && DoneHasResults(sys, w)
  }

  // ---------- each move keeps it ----------

  /** Acknowledging the front request moves exactly that one. */
  lemma FrontAcknowledged(pending: seq<Request>, id: RequestId)
    requires pending != [] && pending[0].id == id && Distinct(Ids(pending))
    ensures Remaining(pending, {id}) == pending[1..]
    ensures Ids(Moved(pending, {id})) == [id]
  {
    if |pending| == 1 {
      assert pending == [pending[0]] && pending[..0] == [];
    } else {
      var init := pending[..|pending| - 1];
      assert Ids(init) == Ids(pending)[..|init|];
      FrontAcknowledged(init, id);
      assert pending[1..] == init[1..] + [pending[|pending| - 1]];
      assert Ids(pending)[0] != Ids(pending)[|pending| - 1];
    }
  }

  lemma ResultsKept(sys: System, t: System, w: ProfileId)
    requires DoneHasResults(sys, w) && t.watcher == sys.watcher && GrowsFor(sys.store, t.store, w)
    ensures DoneHasResults(t, w)
  {
    if sys.watcher.Round? {
      forall i | 0 <= i < sys.watcher.done && i < |sys.watcher.batch|
        ensures ResultFor(t.store, w, sys.watcher.batch[i].id).Some?
      {
        FirstResultOfPrefix(ListOf(sys.store.results, w), ListOf(t.store.results, w), sys.watcher.batch[i].id);
      }
    }
  }

  /** Moves that change neither queue, nor the watcher, and lose no result. */
  lemma QueuesKept(sys: System, t: System, w: ProfileId)
    requires Inv(sys, w) && t == sys.(store := t.store) && SameQueues(sys.store, t.store, w)
    requires GrowsFor(sys.store, t.store, w)
    ensures Inv(t, w)
  {
    ResultsKept(sys, t, w);
  }

  /** A new id at the end of the pending list and of the enqueued ones. */
  lemma LongerQueueKeeps(sys: System, t: System, w: ProfileId, id: RequestId)
    requires Inv(sys, w) && DoneHasResults(t, w) && id !in sys.enqueued
    requires t == sys.(store := t.store, enqueued := sys.enqueued + [id])
    requires ListOf(t.store.acked, w) == ListOf(sys.store.acked, w)
    requires Ids(ListOf(t.store.pending, w)) == Ids(ListOf(sys.store.pending, w)) + [id]
    ensures Inv(t, w)
  {
    var acked, pending := Ids(ListOf(sys.store.acked, w)), Ids(ListOf(sys.store.pending, w));
    assert acked + (pending + [id]) == sys.enqueued + [id];
    assert Settled(t, w) == Settled(sys, w);
  }

  lemma RemoteEnqueueKeeps(sys: System, w: ProfileId, e: Event)
    requires Inv(sys, w) && Enqueues(e, w) && Enabled(sys, w, Remote(e))
    ensures Inv(Next(sys, w, Remote(e)), w)
  {
    var step := e.step.lists;
    var t := Next(sys, w, Remote(e));
    EnqueueEffect(sys.store, w, step.tool, step.session, step.newId, e.now);
    StepGrowsFor(sys.store, e, w);
    ResultsKept(sys, t, w);
    if Accepted(sys.store, w, step.tool) {
      var r := Request(step.newId, step.tool, ResolvedSession(step.session, w), false);
      IdsConcat(ListOf(sys.store.pending, w), [r]);
      assert Ids([r]) == [r.id];
      LongerQueueKeeps(sys, t, w, r.id);
    } else {
      assert sys.enqueued + [] == sys.enqueued;
    }
  }

  lemma RemoteKeeps(sys: System, w: ProfileId, e: Event)
    requires Inv(sys, w) && Enabled(sys, w, Remote(e))
    ensures Inv(Next(sys, w, Remote(e)), w)
  {
    if Enqueues(e, w) {
      RemoteEnqueueKeeps(sys, w, e);
    } else {
      assert sys.enqueued + [] == sys.enqueued;
      StepGrowsFor(sys.store, e, w);
      if e.profile == w {
        OthersKeepQueues(sys.store, e, w);
      } else {
        OthersUntouched(sys.store, e, w);
      }
      QueuesKept(sys, Next(sys, w, Remote(e)), w);
    }
  }

  lemma BeatKeeps(sys: System, w: ProfileId, now: int)
    requires Inv(sys, w) && Enabled(sys, w, Beat(now))
    ensures Inv(Next(sys, w, Beat(now)), w)
  {
    LogKeepsQueues(sys.store, w, HeartbeatStep(true), now);
    var pending := ListOf(sys.store.pending, w);
    assert pending[0..] == pending;
    assert Settled(Next(sys, w, Beat(now)), w) == Settled(sys, w);
  }

  /** Acknowledging the next request of the snapshot moves one id across, at the border. */
  lemma AcknowledgeNextEffect(sys: System, w: ProfileId)
    requires QueueInOrder(sys, w) && SnapshotAhead(sys, w) && At(sys.watcher, ToAcknowledge)
    ensures var t := Acknowledge(sys.store, w, {sys.watcher.batch[sys.watcher.done].id}, true).0;
      var acked, pending := Ids(ListOf(sys.store.acked, w)), Ids(ListOf(sys.store.pending, w));
      && pending != [] && pending[0] == sys.watcher.batch[sys.watcher.done].id
      && Ids(ListOf(t.acked, w)) == acked + [pending[0]]
      && Ids(ListOf(t.pending, w)) == pending[1..]
      && t.results == sys.store.results
      && Ids(sys.watcher.batch[sys.watcher.done + 1..]) <= pending[1..]
  {
    var Round(batch, done, _) := sys.watcher;
    var id := batch[done].id;
    var acked, pending := ListOf(sys.store.acked, w), ListOf(sys.store.pending, w);
    assert Ids(batch[done..])[0] == id && Ids(pending)[0] == id;
    assert Distinct(Ids(pending)) by {
      forall i, j | 0 <= i < j < |pending| ensures Ids(pending)[i] != Ids(pending)[j] {
        assert sys.enqueued[|acked| + i] != sys.enqueued[|acked| + j];
      }
    }
    FrontAcknowledged(pending, id);
    AcknowledgeEffect(sys.store, w, {id});
    IdsConcat(acked, Moved(pending, {id}));
    assert Ids(pending[1..]) == Ids(pending)[1..];
    assert Ids(batch[done + 1..]) == Ids(batch[done..])[1..];
  }

  lemma AcknowledgeKeeps(sys: System, w: ProfileId)
    requires Inv(sys, w) && Enabled(sys, w, AcknowledgeNext)
    ensures Inv(Next(sys, w, AcknowledgeNext), w)
  {
    var t := Next(sys, w, AcknowledgeNext);
    AcknowledgeNextEffect(sys, w);
    var acked, pending := Ids(ListOf(sys.store.acked, w)), Ids(ListOf(sys.store.pending, w));
    assert acked + pending == acked + [pending[0]] + pending[1..];
    assert (acked + [pending[0]])[..|acked|] == acked;
    assert Settled(t, w) == acked == Settled(sys, w);
  }

  /** Delivery writes at most the offline queue. */
  lemma QueueCallWrites(s: Store, w: ProfileId, tool: string, id: RequestId, authorized: bool)
    ensures var t := QueueToolCall(s, w, tool, id, authorized).0; t == s.(queue := t.queue)
  {
  }

  /** The request whose delivery was due is either delivered or lost. */
  lemma OneMoreSettled(delivered: seq<RequestId>, lost: seq<RequestId>, settled: seq<RequestId>, acked: seq<RequestId>, id: RequestId)
    requires Subsequence(delivered, settled) && multiset(delivered) + multiset(lost) == multiset(settled)
    requires acked == settled + [id]
    ensures Subsequence(delivered + [id], acked) && multiset(delivered + [id]) + multiset(lost) == multiset(acked)
    ensures Subsequence(delivered, acked) && multiset(delivered) + multiset(lost + [id]) == multiset(acked)
  {
    SubsequenceBoth(delivered, settled, id);
    SubsequenceLonger(delivered, settled, id);
    CountsOneMore(delivered, lost, settled, id);
  }

  lemma DueIsLast(sys: System, w: ProfileId)
    requires SnapshotAhead(sys, w) && At(sys.watcher, ToDeliver)
    ensures Ids(ListOf(sys.store.acked, w)) == Settled(sys, w) + Due(sys.watcher)
  {
  }

  /** Whether it reaches the node or is refused, which ends the watcher, the delivery settles its request. */
  lemma DeliverKeeps(sys: System, w: ProfileId, authorized: bool)
    requires Inv(sys, w) && Enabled(sys, w, DeliverNext(authorized))
    ensures Inv(Next(sys, w, DeliverNext(authorized)), w)
  {
    var Round(batch, done, phase) := sys.watcher;
    var id := batch[done].id;
    DueIsLast(sys, w);
    OneMoreSettled(sys.delivered, sys.lost, Settled(sys, w), Ids(ListOf(sys.store.acked, w)), id);
    var (store, reply) := QueueToolCall(sys.store, w, batch[done].tool, id, authorized);
    QueueCallWrites(sys.store, w, batch[done].tool, id, authorized);
    if reply.Ok? {
      DeliveredSettles(sys, w, sys.(store := store, watcher := sys.watcher.(phase := ToRecord), delivered := sys.delivered + [id]));
    } else {
      DeliveredSettles(sys, w, sys.(watcher := Down, lost := sys.lost + [id]));
    }
  }

  lemma DeliveredSettles(sys: System, w: ProfileId, t: System)
    requires Inv(sys, w) && At(sys.watcher, ToDeliver)
    requires t.store == sys.store.(queue := t.store.queue) && t.enqueued == sys.enqueued
    requires t.watcher == sys.watcher.(phase := ToRecord) || t.watcher == Down
    requires Subsequence(t.delivered, Ids(ListOf(sys.store.acked, w)))
    requires multiset(t.delivered) + multiset(t.lost) == multiset(Ids(ListOf(sys.store.acked, w)))
    ensures Inv(t, w)
  {
    assert Settled(t, w) == Ids(ListOf(sys.store.acked, w));
    assert forall id :: ResultFor(t.store, w, id) == ResultFor(sys.store, w, id);
  }

  lemma RecordKeeps(sys: System, w: ProfileId, body: string, now: int)
    requires Inv(sys, w) && Enabled(sys, w, RecordNext(body, now))
    ensures Inv(Next(sys, w, RecordNext(body, now)), w)
  {
    var Round(batch, done, _) := sys.watcher;
    var t := Next(sys, w, RecordNext(body, now));
    RecordKeepsQueues(sys.store, w, batch[done].id, body, Some(batch[done].session), true, now);
    RecordGrows(sys.store, w, batch[done].id, body, Some(batch[done].session), true, now);
    var before, after := ListOf(sys.store.results, w), ListOf(t.store.results, w);
    forall i | 0 <= i < done + 1 ensures ResultFor(t.store, w, batch[i].id).Some? {
      if i < done {
        FirstResultOfPrefix(before, after, batch[i].id);
      } else {
        assert after[|before|].requestId == batch[i].id;
      }
    }
    assert Settled(t, w) == Settled(sys, w);
  }

  lemma CrashKeeps(sys: System, w: ProfileId)
    requires Inv(sys, w) && Enabled(sys, w, Crash)
    ensures Inv(Next(sys, w, Crash), w)
  {
    if At(sys.watcher, ToDeliver) {
      DueIsLast(sys, w);
      OneMoreSettled(sys.delivered, sys.lost, Settled(sys, w), Ids(ListOf(sys.store.acked, w)), Due(sys.watcher)[0]);
      DeliveredSettles(sys, w, Next(sys, w, Crash));
    } else {
      assert sys.lost + [] == sys.lost;
    }
  }

  lemma MoveKeeps(sys: System, w: ProfileId, move: Move)
    requires Inv(sys, w) && Enabled(sys, w, move)
    ensures Inv(Next(sys, w, move), w)
  {
    match move
    case Remote(e) => RemoteKeeps(sys, w, e);
    case Beat(now) => BeatKeeps(sys, w, now);
    case AcknowledgeNext => AcknowledgeKeeps(sys, w);
    case DeliverNext(authorized) => DeliverKeeps(sys, w, authorized);
    case RecordNext(body, now) => RecordKeeps(sys, w, body, now);
    case Crash => CrashKeeps(sys, w);
  }

  lemma {:induction false} RunKeeps(sys: System, w: ProfileId, moves: seq<Move>)
    requires Inv(sys, w) && ValidRun(sys, w, moves)
    ensures Inv(RunEnd(sys, w, moves), w)
    decreases |moves|
  {
    if moves != [] {
      MoveKeeps(sys, w, moves[0]);
      RunKeeps(Next(sys, w, moves[0]), w, moves[1..]);
    }
  }

  // ---------- what it means ----------

  /**
   With one watcher, whatever interleaving of enqueues, crashes and restarts: acknowledged then
   pending is the enqueue order; each request is delivered at most once, only after it was
   acknowledged, in enqueue order.
   */
  lemma DeliveryIsSafe(w: ProfileId, moves: seq<Move>) returns (at: seq<nat>)
    requires ValidRun(Init(), w, moves)
    ensures var sys := RunEnd(Init(), w, moves);
      var acked := Ids(ListOf(sys.store.acked, w));
      && acked + Ids(ListOf(sys.store.pending, w)) == sys.enqueued
      && Distinct(sys.delivered)
      && |at| == |sys.delivered|
      && (forall i | 0 <= i < |at| :: at[i] < |acked| && sys.enqueued[at[i]] == sys.delivered[i])
      && (forall i, j | 0 <= i < j < |at| :: at[i] < at[j])
  {
    RunKeeps(Init(), w, moves);
    var sys := RunEnd(Init(), w, moves);
    var acked := Ids(ListOf(sys.store.acked, w));
    var settled := Settled(sys, w);
    at := SubsequencePositions(sys.delivered, settled);
    forall i | 0 <= i < |at| ensures at[i] < |acked| && sys.enqueued[at[i]] == sys.delivered[i] {
      assert settled[at[i]] == acked[at[i]] == sys.enqueued[at[i]];
    }
    forall i, j | 0 <= i < j < |sys.delivered| ensures sys.delivered[i] != sys.delivered[j] {
      assert sys.enqueued[at[i]] != sys.enqueued[at[j]];
    }
  }

  /**
   The exact account of what was acknowledged: each request is delivered, or lost to a crash or refusal between
   its acknowledgement and its delivery, or its delivery is due right now, and only one of these.
   */
  lemma AcknowledgedExactly(w: ProfileId, moves: seq<Move>)
    requires ValidRun(Init(), w, moves)
    ensures var sys := RunEnd(Init(), w, moves);
      var acked := Ids(ListOf(sys.store.acked, w));
      && multiset(acked) == multiset(sys.delivered) + multiset(sys.lost) + multiset(Due(sys.watcher))
      && |acked| == |sys.delivered| + |sys.lost| + (if At(sys.watcher, ToDeliver) then 1 else 0)
      && (forall id :: multiset(sys.delivered)[id] + multiset(sys.lost)[id] + multiset(Due(sys.watcher))[id] <= 1)
  {
    RunKeeps(Init(), w, moves);
    var sys := RunEnd(Init(), w, moves);
    if At(sys.watcher, ToDeliver) {
      DueIsLast(sys, w);
    }
    assert Ids(ListOf(sys.store.acked, w)) == Settled(sys, w) + Due(sys.watcher);
    Accounted(sys.enqueued, Ids(ListOf(sys.store.acked, w)), Ids(ListOf(sys.store.pending, w)),
              Settled(sys, w), sys.delivered, sys.lost, Due(sys.watcher));
  }

  lemma Accounted(enqueued: seq<RequestId>, acked: seq<RequestId>, pending: seq<RequestId>,
                  settled: seq<RequestId>, delivered: seq<RequestId>, lost: seq<RequestId>, due: seq<RequestId>)
    requires Distinct(enqueued) && acked + pending == enqueued && acked == settled + due
    requires multiset(delivered) + multiset(lost) == multiset(settled)
    ensures multiset(acked) == multiset(delivered) + multiset(lost) + multiset(due)
    ensures |acked| == |delivered| + |lost| + |due|
    ensures forall id :: multiset(delivered)[id] + multiset(lost)[id] + multiset(due)[id] <= 1
  {
    assert |multiset(settled)| == |multiset(delivered)| + |multiset(lost)|;
    assert multiset(enqueued) == multiset(acked) + multiset(pending);
    assert multiset(acked) == multiset(delivered) + multiset(lost) + multiset(due);
    forall id ensures multiset(delivered)[id] + multiset(lost)[id] + multiset(due)[id] <= 1 {
      DistinctMultiset(enqueued, id);
      assert multiset(enqueued)[id] == multiset(acked)[id] + multiset(pending)[id];
      assert multiset(acked)[id] == multiset(delivered)[id] + multiset(lost)[id] + multiset(due)[id];
    }
  }

  lemma {:induction false} WholeSubsequence(a: seq<RequestId>, b: seq<RequestId>)
    requires Subsequence(a, b) && |a| == |b|
    ensures a == b
  {
    if a != [] {
      if a[|a| - 1] == b[|b| - 1] {
        WholeSubsequence(a[..|a| - 1], b[..|b| - 1]);
        assert a == a[..|a| - 1] + [a[|a| - 1]] && b == b[..|b| - 1] + [b[|b| - 1]];
      } else {
        var at := SubsequencePositions(a, b[..|b| - 1]);
        PositionsFit(at, |b| - 1);
      }
    }
  }

  lemma {:induction false} PositionsFit(at: seq<nat>, n: nat)
    requires forall i, j | 0 <= i < j < |at| :: at[i] < at[j]
    requires forall i | 0 <= i < |at| :: at[i] < n
    ensures |at| <= n
  {
    if at != [] {
      PositionsFit(at[..|at| - 1], at[|at| - 1]);
    }
  }

  /** All that was acknowledged has been delivered, in order, exactly when nothing was lost and nothing is due. */
  lemma DeliveredInFullExactly(w: ProfileId, moves: seq<Move>)
    requires ValidRun(Init(), w, moves)
    ensures var sys := RunEnd(Init(), w, moves);
      sys.delivered == Ids(ListOf(sys.store.acked, w)) <==> sys.lost == [] && !At(sys.watcher, ToDeliver)
  {
    AcknowledgedExactly(w, moves);
    RunKeeps(Init(), w, moves);
    var sys := RunEnd(Init(), w, moves);
    if sys.lost == [] && !At(sys.watcher, ToDeliver) {
      WholeSubsequence(sys.delivered, Settled(sys, w));
    }
  }

  /** One registered profile with one enqueued request. */
  ghost function OneRequest(w: ProfileId, tool: string, id: RequestId, now: int): System {
    var s := EmptyStore.(tools := map[w := {tool}]);
    Init().(store := Enqueue(s, w, tool, None, id, now).0, enqueued := [id])
  }

  lemma OneRequestWaits(w: ProfileId, tool: string, id: RequestId, now: int)
    ensures var sys := OneRequest(w, tool, id, now);
      ListOf(sys.store.pending, w) == [Request(id, tool, OwnSession(w), false)] && ListOf(sys.store.acked, w) == []
      && sys.store.tools == map[w := {tool}]
    ensures var register := Remote(Event(w, now, Node(RegisterProfile({tool}))));
      var enqueue := Remote(Event(w, now, Lists(EnqueueStep(tool, None, id))));
      && Enabled(Init(), w, register) && Enabled(Next(Init(), w, register), w, enqueue)
      && Next(Next(Init(), w, register), w, enqueue) == OneRequest(w, tool, id, now)
  {
    var s := EmptyStore.(tools := map[w := {tool}]);
    EnqueueEffect(s, w, tool, None, id, now);
  }

  /** A heartbeat changes neither queue nor tools, and takes all that is pending. */
  lemma BeatTakes(sys: System, w: ProfileId, now: int)
    requires Enabled(sys, w, Beat(now))
    ensures var t := Next(sys, w, Beat(now));
      && t == sys.(store := t.store, watcher := Round(ListOf(sys.store.pending, w), 0, ToAcknowledge))
      && t.store.pending == sys.store.pending && t.store.acked == sys.store.acked && t.store.tools == sys.store.tools
  {
    LogKeepsQueues(sys.store, w, HeartbeatStep(true), now);
    HeartbeatKeepsTools(sys.store, w, true, now);
  }

  lemma HeartbeatKeepsTools(s: Store, w: ProfileId, authorized: bool, now: int)
    ensures Heartbeat(s, w, authorized, now).0.tools == s.tools
  {
  }

  lemma OnlyRequestAcknowledged(sys: System, w: ProfileId, request: Request)
    requires sys.watcher == Round([request], 0, ToAcknowledge) && ListOf(sys.store.pending, w) == [request]
    ensures var t := Next(sys, w, AcknowledgeNext);
      && t == sys.(store := t.store, watcher := Round([request], 0, ToDeliver))
      && ListOf(t.store.pending, w) == []
  {
    assert Ids([request]) == [request.id];
    FrontAcknowledged([request], request.id);
    AcknowledgeEffect(sys.store, w, {request.id});
  }

  /** A run that loses a request: it is acknowledged, the watcher crashes, and a restart finds nothing pending. */
  lemma CrashLosesRequest(w: ProfileId, tool: string, id: RequestId, now: int)
    ensures var register := Remote(Event(w, now, Node(RegisterProfile({tool}))));
      var enqueue := Remote(Event(w, now, Lists(EnqueueStep(tool, None, id))));
      var moves := [register, enqueue, Beat(now), AcknowledgeNext, Crash, Beat(now)];
      && ValidRun(Init(), w, moves)
      && var sys := RunEnd(Init(), w, moves);
         sys.enqueued == sys.lost == [id] && sys.delivered == [] && sys.watcher == Round([], 0, ToAcknowledge)
  {
    var register := Remote(Event(w, now, Node(RegisterProfile({tool}))));
    var enqueue := Remote(Event(w, now, Lists(EnqueueStep(tool, None, id))));
    var s2 := OneRequest(w, tool, id, now);
    OneRequestWaits(w, tool, id, now);
    BeatTakes(s2, w, now);
    var s3 := Next(s2, w, Beat(now));
    OnlyRequestAcknowledged(s3, w, Request(id, tool, OwnSession(w), false));
    var s4 := Next(s3, w, AcknowledgeNext);
    var s5 := Next(s4, w, Crash);
    BeatTakes(s5, w, now);
    RunOfSix(w, Init(), Next(Init(), w, register), s2, s3, s4, s5, Next(s5, w, Beat(now)),
             [register, enqueue, Beat(now), AcknowledgeNext, Crash, Beat(now)]);
  }

  lemma RunOfSix(w: ProfileId, s0: System, s1: System, s2: System, s3: System, s4: System, s5: System, s6: System, moves: seq<Move>)
    requires |moves| == 6
    requires Enabled(s0, w, moves[0]) && s1 == Next(s0, w, moves[0]) && Enabled(s1, w, moves[1]) && s2 == Next(s1, w, moves[1])
    requires Enabled(s2, w, moves[2]) && s3 == Next(s2, w, moves[2]) && Enabled(s3, w, moves[3]) && s4 == Next(s3, w, moves[3])
    requires Enabled(s4, w, moves[4]) && s5 == Next(s4, w, moves[4]) && Enabled(s5, w, moves[5]) && s6 == Next(s5, w, moves[5])
    ensures ValidRun(s0, w, moves) && RunEnd(s0, w, moves) == s6
  {
    assert ValidRun(s6, w, moves[6..]);
    assert moves[5..][1..] == moves[6..] && ValidRun(s5, w, moves[5..]) && RunEnd(s5, w, moves[5..]) == s6;
    assert moves[4..][1..] == moves[5..] && ValidRun(s4, w, moves[4..]) && RunEnd(s4, w, moves[4..]) == s6;
    assert moves[3..][1..] == moves[4..] && ValidRun(s3, w, moves[3..]) && RunEnd(s3, w, moves[3..]) == s6;
    assert moves[2..][1..] == moves[3..] && ValidRun(s2, w, moves[2..]) && RunEnd(s2, w, moves[2..]) == s6;
    assert ValidRun(s1, w, moves[1..]) && RunEnd(s1, w, moves[1..]) == s6;
  }

  /** A round that reached its end without a crash has a result for every request of its heartbeat. */
  lemma FinishedRoundAnswersAll(w: ProfileId, moves: seq<Move>)
    requires ValidRun(Init(), w, moves)
    ensures var sys := RunEnd(Init(), w, moves);
      sys.watcher.Round? && sys.watcher.done == |sys.watcher.batch|
      ==> forall r | r in sys.watcher.batch :: ResultFor(sys.store, w, r.id).Some?
  {
    RunKeeps(Init(), w, moves);
  }

  // ---------- whether a delivery reaches the node ----------

  /** While the watcher is in a round, its registered link is online. */
  ghost predicate LinkUp(sys: System, w: ProfileId) {
    sys.watcher.Round? && w in sys.store.online ==> sys.store.online[w]
  }

  /** Nobody registers the link as offline during a round. */
  ghost predicate StaysUp(sys: System, w: ProfileId, moves: seq<Move>)
    requires ValidRun(sys, w, moves)
    decreases |moves|
  {
    moves == [] ||
    (&& (moves[0].Remote? && RelayLinks.RegistersLink(moves[0].event, w) && sys.watcher.Round? ==> moves[0].event.step.node.online)
     && StaysUp(Next(sys, w, moves[0]), w, moves[1..]))
  }

  lemma MoveKeepsLinkUp(sys: System, w: ProfileId, move: Move)
    requires Enabled(sys, w, move) && LinkUp(sys, w)
    requires move.Remote? && RelayLinks.RegistersLink(move.event, w) && sys.watcher.Round? ==> move.event.step.node.online
    ensures LinkUp(Next(sys, w, move), w)
  {
    match move
    case Remote(e) => RelayLinks.StepWrites(sys.store, e);
    case Beat(now) => RelayLinks.HeartbeatExactly(sys.store, w, true, now);
    case AcknowledgeNext => RelayLinks.ListsWrite(sys.store, w, AcknowledgeStep({sys.watcher.batch[sys.watcher.done].id}, true), 0);
    case DeliverNext(_) =>
    case RecordNext(body, now) =>
      var request := sys.watcher.batch[sys.watcher.done];
      RelayLinks.ListsWrite(sys.store, w, RecordStep(request.id, body, Some(request.session), true), now);
    case Crash =>
  }

  lemma {:induction false} RunKeepsLinkUp(sys: System, w: ProfileId, moves: seq<Move>)
    requires ValidRun(sys, w, moves) && LinkUp(sys, w) && StaysUp(sys, w, moves)
    ensures LinkUp(RunEnd(sys, w, moves), w)
    decreases |moves|
  {
    if moves != [] {
      MoveKeepsLinkUp(sys, w, moves[0]);
      RunKeepsLinkUp(Next(sys, w, moves[0]), w, moves[1..]);
    }
  }

  /**
   What the watcher's next delivery does, after any run in which nobody registers the link as offline during a
   round: with a registered link it reaches the node or is rejected, as authorized, and is never queued.
   */
  lemma DeliveryReachesNode(w: ProfileId, moves: seq<Move>, authorized: bool)
    requires ValidRun(Init(), w, moves) && StaysUp(Init(), w, moves)
    requires var sys := RunEnd(Init(), w, moves);
      At(sys.watcher, ToDeliver) && w in sys.store.online && Accepted(sys.store, w, sys.watcher.batch[sys.watcher.done].tool)
    ensures var sys := RunEnd(Init(), w, moves);
      var request := sys.watcher.batch[sys.watcher.done];
      QueueToolCall(sys.store, w, request.tool, request.id, authorized) == (sys.store, Ok(if authorized then Delivered else Rejected))
  {
    RunKeepsLinkUp(Init(), w, moves);
  }

  /** Recording adds the watcher's own answer to the request it stands at, after all earlier results. */
  lemma AnswerRecorded(sys: System, w: ProfileId, body: string, now: int)
    requires Enabled(sys, w, RecordNext(body, now))
    ensures var request := sys.watcher.batch[sys.watcher.done];
      var t := Next(sys, w, RecordNext(body, now));
      && ListOf(t.store.results, w) == ListOf(sys.store.results, w) + [Result(request.id, body)]
      && (ResultFor(sys.store, w, request.id).None? ==> ResultFor(t.store, w, request.id) == Some(Result(request.id, body)))
  {
    var request := sys.watcher.batch[sys.watcher.done];
    var before := ListOf(sys.store.results, w);
    RelayLinks.RecordExactly(sys.store, w, request.id, body, Some(request.session), true, now);
    if ResultFor(sys.store, w, request.id).None? {
      RelayLinks.LookupExactly(before + [Result(request.id, body)], request.id, |before|);
    }
  }
}
