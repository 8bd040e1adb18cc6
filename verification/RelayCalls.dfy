/**
 The watcher as one more caller of the relay: each of its moves is one call, so that every
 run of the watcher and the remote callers is a run of the relay and all that holds of those
 runs holds of it.
 */
module RelayCalls {
  import opened Options
  import opened RelayStore
  import opened RelayRuns
  import opened RelayWatcher
  import RelayLinks
  import RelaySessions

  /** The call that a move makes; only a crash makes none. */
  ghost function Calls(sys: System, w: ProfileId, move: Move): seq<Event>
    requires Enabled(sys, w, move)
  {
    match move
    case Remote(e) => [e]
    case Beat(now) => [Event(w, now, Log(HeartbeatStep(true)))]
    case AcknowledgeNext => [Event(w, 0, Lists(AcknowledgeStep({sys.watcher.batch[sys.watcher.done].id}, true)))]
    case DeliverNext(authorized) =>
      var request := sys.watcher.batch[sys.watcher.done];
      [Event(w, 0, Node(QueueStep(request.tool, request.id, authorized)))]
    case RecordNext(body, now) =>
      var request := sys.watcher.batch[sys.watcher.done];
      [Event(w, now, Lists(RecordStep(request.id, body, Some(request.session), true)))]
    case Crash => []
  }

  ghost function AllCalls(sys: System, w: ProfileId, moves: seq<Move>): seq<Event>
    requires ValidRun(sys, w, moves)
    decreases |moves|
  {
    if moves == [] then [] else Calls(sys, w, moves[0]) + AllCalls(Next(sys, w, moves[0]), w, moves[1..])
  }

  lemma MoveIsCall(sys: System, w: ProfileId, move: Move)
    requires Enabled(sys, w, move)
    ensures Next(sys, w, move).store == if move.Crash? then sys.store else Apply(sys.store, Calls(sys, w, move)[0])
  {
  }

  lemma {:induction false} FirstCall(s: Store, e: Event, es: seq<Event>)
    ensures RelayRuns.RunEnd(s, [e] + es) == RelayRuns.RunEnd(Apply(s, e), es)
    decreases |es|
  {
    if es == [] {
      assert [e] + es == [e] && [e][..0] == [];
      assert RelayRuns.RunEnd(s, []) == s;
    } else {
      var n := |es| - 1;
      assert ([e] + es)[..n + 1] == [e] + es[..n];
      FirstCall(s, e, es[..n]);
    }
  }

  /** The store after a run of the watcher is that of the relay after the calls of the run. */
  lemma {:induction false} RunIsRelayRun(sys: System, w: ProfileId, moves: seq<Move>)
    requires ValidRun(sys, w, moves)
    ensures RelayWatcher.RunEnd(sys, w, moves).store == RelayRuns.RunEnd(sys.store, AllCalls(sys, w, moves))
    decreases |moves|
  {
    if moves != [] {
      var calls, next := Calls(sys, w, moves[0]), Next(sys, w, moves[0]);
      var rest := AllCalls(next, w, moves[1..]);
      MoveIsCall(sys, w, moves[0]);
      RunIsRelayRun(next, w, moves[1..]);
      if moves[0].Crash? {
        assert calls + rest == rest;
      } else {
        FirstCall(sys.store, calls[0], rest);
        assert calls == [calls[0]];
      }
    }
  }

  /** So the sessions hold what the callers and the watcher said, in order, and the offline queue what found no online link. */
  lemma WatchedStore(w: ProfileId, moves: seq<Move>, p: ProfileId, x: SessionId)
    requires ValidRun(Init(), w, moves)
    ensures var store, calls := RelayWatcher.RunEnd(Init(), w, moves).store, AllCalls(Init(), w, moves);
      && SessionOf(store, p, x).messages == RelaySessions.SaidAll(EmptyStore, calls, p, x)
      && store.queue == RelayLinks.QueuedCalls(EmptyStore, calls)
  {
    RunIsRelayRun(Init(), w, moves);
    RelaySessions.LogExactly(AllCalls(Init(), w, moves), p, x);
    RelayLinks.QueueExactly(EmptyStore, AllCalls(Init(), w, moves));
  }
}
