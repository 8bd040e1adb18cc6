/**
 Two watchers of one profile (`_cmd_mcp_relay_watch` in astrata/main.py started twice), each with the moves
 of a single one: which heartbeats endanger the guarantee that a request is delivered at most once.
 */
module RelayTwoWatchers {
  import opened Options
  import opened Sequences
  import opened RelayStore
  import opened RelayRuns
  import opened RelayWatcher

  datatype Side = First | Second

  datatype Pair = Pair(store: Store, first: Watcher, second: Watcher, enqueued: seq<RequestId>, delivered: seq<RequestId>)

  /** A move of one of the watchers, or a remote call. */
  datatype Turn = Turn(side: Side, move: Move)

  function Other(x: Side): Side {
    if x == First then Second else First
  }

  function Of(sys: Pair, x: Side): Watcher {
    if x == First then sys.first else sys.second
  }

  /** The system as if this watcher were the only one. */
  function Solo(sys: Pair, x: Side): System {
    System(sys.store, Of(sys, x), sys.enqueued, sys.delivered, [])
  }

  function Joined(sys: Pair, x: Side, t: System): Pair {
    if x == First then Pair(t.store, t.watcher, sys.second, t.enqueued, t.delivered)
    else Pair(t.store, sys.first, t.watcher, t.enqueued, t.delivered)
  }

  ghost predicate Allowed(sys: Pair, w: ProfileId, turn: Turn) {
    Enabled(Solo(sys, turn.side), w, turn.move)
  }

  ghost function After(sys: Pair, w: ProfileId, turn: Turn): Pair {
    if Allowed(sys, w, turn) then Joined(sys, turn.side, Next(Solo(sys, turn.side), w, turn.move)) else sys
  }

  const Start := Pair(EmptyStore, Down, Down, [], [])

  ghost predicate ValidTurns(sys: Pair, w: ProfileId, turns: seq<Turn>)
    decreases |turns|
  {
    turns == [] || (Allowed(sys, w, turns[0]) && ValidTurns(After(sys, w, turns[0]), w, turns[1..]))
  }

  ghost function End(sys: Pair, w: ProfileId, turns: seq<Turn>): Pair
    decreases |turns|
  {
    if turns == [] then sys else End(After(sys, w, turns[0]), w, turns[1..])
  }

  /** What the watcher has still to acknowledge of its snapshot. */
  function Rest(watcher: Watcher): seq<Request> {
    if watcher.Down? || watcher.done >= |watcher.batch| then []
    else if watcher.phase == ToAcknowledge then watcher.batch[watcher.done..]
    else watcher.batch[watcher.done + 1..]
  }

  /** At a heartbeat the other watcher has nothing left to acknowledge. */
  ghost predicate Clear(sys: Pair, turn: Turn) {
    turn.move.Beat? ==> Rest(Of(sys, Other(turn.side))) == []
  }

  ghost predicate ClearTurns(sys: Pair, w: ProfileId, turns: seq<Turn>)
    decreases |turns|
  {
    turns == [] || (Clear(sys, turns[0]) && ClearTurns(After(sys, w, turns[0]), w, turns[1..]))
  }

  // ---------- what clear heartbeats keep ----------

  predicate Sound(watcher: Watcher) {
    watcher.Round? ==> watcher.done <= |watcher.batch| && (watcher.phase != ToAcknowledge ==> watcher.done < |watcher.batch|)
  }

  /** In terms of the ids on the lists: nothing is delivered twice, and nothing is about to be. */
  ghost predicate Safe(acked: seq<RequestId>, pending: seq<RequestId>, enqueued: seq<RequestId>, delivered: seq<RequestId>,
                       x: Watcher, y: Watcher)
  {
    && Distinct(enqueued) && acked + pending == enqueued
    && Sound(x) && Sound(y) && Ids(Rest(x)) <= pending && Ids(Rest(y)) <= pending && (Rest(x) == [] || Rest(y) == [])
    && Distinct(delivered) && (forall id | id in delivered :: id in acked)
    && (forall id | id in Due(x) :: id in acked && id !in delivered && id !in Due(y))
    && (forall id | id in Due(y) :: id in acked && id !in delivered)
  }

  ghost predicate SafeFor(sys: Pair, w: ProfileId, x: Side) {
    Safe(Ids(ListOf(sys.store.acked, w)), Ids(ListOf(sys.store.pending, w)), sys.enqueued, sys.delivered, Of(sys, x), Of(sys, Other(x)))
  }

  lemma SafeEitherWay(sys: Pair, w: ProfileId, x: Side)
    requires SafeFor(sys, w, x)
    ensures SafeFor(sys, w, Other(x))
  {
  }

  lemma SafeBeat(acked: seq<RequestId>, pending: seq<Request>, enqueued: seq<RequestId>, delivered: seq<RequestId>, x: Watcher, y: Watcher)
    requires Safe(acked, Ids(pending), enqueued, delivered, x, y) && Rest(y) == []
    ensures Safe(acked, Ids(pending), enqueued, delivered, Round(pending, 0, ToAcknowledge), y)
  {
    assert pending[0..] == pending;
  }

  lemma SafeAcknowledge(acked: seq<RequestId>, pending: seq<RequestId>, enqueued: seq<RequestId>, delivered: seq<RequestId>, x: Watcher, y: Watcher)
    requires Safe(acked, pending, enqueued, delivered, x, y) && At(x, ToAcknowledge)
    ensures pending != [] && pending[0] == x.batch[x.done].id
    ensures Safe(acked + [pending[0]], pending[1..], enqueued, delivered, x.(phase := ToDeliver), y)
  {
    var rest := Rest(x);
    assert Ids(rest)[0] == x.batch[x.done].id;
    var id := pending[0];
    assert enqueued[|acked|] == id;
    forall i | 0 <= i < |acked| ensures acked[i] != id {
      assert enqueued[i] == acked[i];
    }
    assert Ids(rest[1..]) == Ids(rest)[1..];
    assert x.batch[x.done + 1..] == rest[1..];
    assert acked + [id] + pending[1..] == acked + pending;
  }

  lemma SafeDeliver(acked: seq<RequestId>, pending: seq<RequestId>, enqueued: seq<RequestId>, delivered: seq<RequestId>, x: Watcher, y: Watcher)
    requires Safe(acked, pending, enqueued, delivered, x, y) && At(x, ToDeliver)
    ensures Safe(acked, pending, enqueued, delivered + [x.batch[x.done].id], x.(phase := ToRecord), y)
  {
    assert x.batch[x.done].id in Due(x);
  }

  lemma SafeRecord(acked: seq<RequestId>, pending: seq<RequestId>, enqueued: seq<RequestId>, delivered: seq<RequestId>, x: Watcher, y: Watcher)
    requires Safe(acked, pending, enqueued, delivered, x, y) && At(x, ToRecord)
    ensures Safe(acked, pending, enqueued, delivered, x.(done := x.done + 1, phase := ToAcknowledge), y)
  {
  }

  lemma SafeDown(acked: seq<RequestId>, pending: seq<RequestId>, enqueued: seq<RequestId>, delivered: seq<RequestId>, x: Watcher, y: Watcher)
    requires Safe(acked, pending, enqueued, delivered, x, y)
    ensures Safe(acked, pending, enqueued, delivered, Down, y)
  {
  }

  lemma SafeEnqueue(acked: seq<RequestId>, pending: seq<RequestId>, enqueued: seq<RequestId>, delivered: seq<RequestId>, x: Watcher, y: Watcher,
                    more: seq<RequestId>)
    requires Safe(acked, pending, enqueued, delivered, x, y)
    requires |more| <= 1 && forall id | id in more :: id !in enqueued
    ensures Safe(acked, pending + more, enqueued + more, delivered, x, y)
  {
    assert acked + (pending + more) == (acked + pending) + more;
    if more == [] {
      assert pending + more == pending && enqueued + more == enqueued;
    } else {
      assert more == [more[0]] && more[0] in more;
    }
  }

  // ---------- each turn ----------

  lemma RemoteQueues(s: Store, e: Event, w: ProfileId)
    requires !(e.profile == w && e.step.Lists? && e.step.lists.AcknowledgeStep?)
    ensures ListOf(Apply(s, e).acked, w) == ListOf(s.acked, w)
    ensures Ids(ListOf(Apply(s, e).pending, w)) == Ids(ListOf(s.pending, w)) + Enqueued(s, e, w)
  {
    if Enqueues(e, w) {
      var step := e.step.lists;
      EnqueueEffect(s, w, step.tool, step.session, step.newId, e.now);
      IdsOneMore(ListOf(s.pending, w), Request(step.newId, step.tool, ResolvedSession(step.session, w), false));
    } else if e.profile == w {
      OthersKeepQueues(s, e, w);
    } else {
      OthersUntouched(s, e, w);
    }
  }

  lemma RemoteKeeps(sys: Pair, w: ProfileId, x: Side, e: Event)
    requires SafeFor(sys, w, x) && Allowed(sys, w, Turn(x, Remote(e)))
    ensures SafeFor(After(sys, w, Turn(x, Remote(e))), w, x)
  {
    RemoteQueues(sys.store, e, w);
    SafeEnqueue(Ids(ListOf(sys.store.acked, w)), Ids(ListOf(sys.store.pending, w)), sys.enqueued, sys.delivered,
                Of(sys, x), Of(sys, Other(x)), Enqueued(sys.store, e, w));
  }

  lemma BeatKeeps(sys: Pair, w: ProfileId, x: Side, now: int)
    requires SafeFor(sys, w, x) && Allowed(sys, w, Turn(x, Beat(now))) && Rest(Of(sys, Other(x))) == []
    ensures SafeFor(After(sys, w, Turn(x, Beat(now))), w, x)
  {
    BeatTakes(Solo(sys, x), w, now);
    SafeBeat(Ids(ListOf(sys.store.acked, w)), ListOf(sys.store.pending, w), sys.enqueued, sys.delivered,
             Of(sys, x), Of(sys, Other(x)));
  }

  lemma AcknowledgeKeeps(sys: Pair, w: ProfileId, x: Side)
    requires SafeFor(sys, w, x) && Allowed(sys, w, Turn(x, AcknowledgeNext))
    ensures SafeFor(After(sys, w, Turn(x, AcknowledgeNext)), w, x)
  {
    AcknowledgeNextEffect(Solo(sys, x), w);
    SafeAcknowledge(Ids(ListOf(sys.store.acked, w)), Ids(ListOf(sys.store.pending, w)), sys.enqueued, sys.delivered,
                    Of(sys, x), Of(sys, Other(x)));
  }

  lemma DeliverKeeps(sys: Pair, w: ProfileId, x: Side, authorized: bool)
    requires SafeFor(sys, w, x) && Allowed(sys, w, Turn(x, DeliverNext(authorized)))
    ensures SafeFor(After(sys, w, Turn(x, DeliverNext(authorized))), w, x)
  {
    var watcher := Of(sys, x);
    var request := watcher.batch[watcher.done];
    var acked, pending := Ids(ListOf(sys.store.acked, w)), Ids(ListOf(sys.store.pending, w));
    QueueCallWrites(sys.store, w, request.tool, request.id, authorized);
    SafeDeliver(acked, pending, sys.enqueued, sys.delivered, watcher, Of(sys, Other(x)));
    SafeDown(acked, pending, sys.enqueued, sys.delivered, watcher, Of(sys, Other(x)));
  }

  lemma RecordKeeps(sys: Pair, w: ProfileId, x: Side, body: string, now: int)
    requires SafeFor(sys, w, x) && Allowed(sys, w, Turn(x, RecordNext(body, now)))
    ensures SafeFor(After(sys, w, Turn(x, RecordNext(body, now))), w, x)
  {
    var watcher := Of(sys, x);
    var request := watcher.batch[watcher.done];
    RecordKeepsQueues(sys.store, w, request.id, body, Some(request.session), true, now);
    var acked, pending := Ids(ListOf(sys.store.acked, w)), Ids(ListOf(sys.store.pending, w));
    SafeRecord(acked, pending, sys.enqueued, sys.delivered, watcher, Of(sys, Other(x)));
    var t := After(sys, w, Turn(x, RecordNext(body, now)));
    assert t.enqueued == sys.enqueued && t.delivered == sys.delivered;
    assert Of(t, x) == watcher.(done := watcher.done + 1, phase := ToAcknowledge) && Of(t, Other(x)) == Of(sys, Other(x));
    assert Ids(ListOf(t.store.acked, w)) == acked && Ids(ListOf(t.store.pending, w)) == pending;
  }

  lemma TurnKeeps(sys: Pair, w: ProfileId, turn: Turn)
    requires SafeFor(sys, w, First) && Allowed(sys, w, turn) && Clear(sys, turn)
    ensures SafeFor(After(sys, w, turn), w, First)
  {
    var x := turn.side;
    SafeEitherWay(sys, w, First);
    match turn.move {
      case Remote(e) => RemoteKeeps(sys, w, x, e);
      case Beat(now) => BeatKeeps(sys, w, x, now);
      case AcknowledgeNext => AcknowledgeKeeps(sys, w, x);
      case DeliverNext(authorized) => DeliverKeeps(sys, w, x, authorized);
      case RecordNext(body, now) => RecordKeeps(sys, w, x, body, now);
      case Crash =>
        SafeDown(Ids(ListOf(sys.store.acked, w)), Ids(ListOf(sys.store.pending, w)), sys.enqueued, sys.delivered,
                 Of(sys, x), Of(sys, Other(x)));
    }
    SafeEitherWay(After(sys, w, turn), w, x);
  }

  lemma {:induction false} TurnsKeep(sys: Pair, w: ProfileId, turns: seq<Turn>)
    requires SafeFor(sys, w, First) && ValidTurns(sys, w, turns) && ClearTurns(sys, w, turns)
    ensures SafeFor(End(sys, w, turns), w, First)
    decreases |turns|
  {
    if turns != [] {
      TurnKeeps(sys, w, turns[0]);
      TurnsKeep(After(sys, w, turns[0]), w, turns[1..]);
    }
  }

  /** While every heartbeat finds the other watcher's remainder empty, each request is delivered at most once. */
  lemma ClearRunsDeliverOnce(w: ProfileId, turns: seq<Turn>)
    requires ValidTurns(Start, w, turns) && ClearTurns(Start, w, turns)
    ensures var sys := End(Start, w, turns);
      Distinct(sys.delivered) && forall id | id in sys.delivered :: id in Ids(ListOf(sys.store.acked, w))
  {
    TurnsKeep(Start, w, turns);
  }

  // ---------- a heartbeat that is not clear ----------

  ghost predicate NoBeat(turns: seq<Turn>) {
    forall i | 0 <= i < |turns| :: !turns[i].move.Beat?
  }

  lemma {:induction false} NoBeatIsClear(sys: Pair, w: ProfileId, turns: seq<Turn>)
    requires NoBeat(turns)
    ensures ClearTurns(sys, w, turns)
    decreases |turns|
  {
    if turns != [] {
      NoBeatIsClear(After(sys, w, turns[0]), w, turns[1..]);
    }
  }

  lemma TurnsPrepended(sys: Pair, w: ProfileId, turn: Turn, rest: seq<Turn>)
    requires Allowed(sys, w, turn) && ValidTurns(After(sys, w, turn), w, rest)
    ensures ValidTurns(sys, w, [turn] + rest) && End(sys, w, [turn] + rest) == End(After(sys, w, turn), w, rest)
  {
    assert ([turn] + rest)[1..] == rest;
  }

  lemma {:induction false} TurnsConcat(sys: Pair, w: ProfileId, a: seq<Turn>, b: seq<Turn>)
    requires ValidTurns(sys, w, a) && ValidTurns(End(sys, w, a), w, b)
    ensures ValidTurns(sys, w, a + b) && End(sys, w, a + b) == End(End(sys, w, a), w, b)
    decreases |a|
  {
    if a == [] {
      assert a + b == b;
    } else {
      TurnsConcat(After(sys, w, a[0]), w, a[1..], b);
      TurnsPrepended(sys, w, a[0], a[1..] + b);
      HeadAndRest(a, b);
    }
  }

  lemma OneTurn(sys: Pair, w: ProfileId, turn: Turn)
    requires Allowed(sys, w, turn)
    ensures ValidTurns(sys, w, [turn]) && End(sys, w, [turn]) == After(sys, w, turn)
  {
    assert [turn][1..] == [];
  }

  /** The tool can be called for the profile. */
  predicate Callable(sys: Pair, w: ProfileId, request: Request) {
    Accepted(sys.store, w, request.tool)
  }

  lemma AcknowledgeEffects(sys: Pair, w: ProfileId, x: Side)
    requires At(Of(sys, x), ToAcknowledge)
    ensures var t := After(sys, w, Turn(x, AcknowledgeNext));
      && Of(t, x) == Of(sys, x).(phase := ToDeliver) && Of(t, Other(x)) == Of(sys, Other(x))
      && t.delivered == sys.delivered && t.store.tools == sys.store.tools
  {
  }

  lemma DeliverEffects(sys: Pair, w: ProfileId, x: Side)
    requires At(Of(sys, x), ToDeliver) && Callable(sys, w, Of(sys, x).batch[Of(sys, x).done])
    ensures var t := After(sys, w, Turn(x, DeliverNext(true)));
      && Of(t, x) == Of(sys, x).(phase := ToRecord) && Of(t, Other(x)) == Of(sys, Other(x))
      && t.delivered == sys.delivered + [Of(sys, x).batch[Of(sys, x).done].id] && t.store.tools == sys.store.tools
  {
    var request := Of(sys, x).batch[Of(sys, x).done];
    QueueCallWrites(sys.store, w, request.tool, request.id, true);
  }

  lemma RecordEffects(sys: Pair, w: ProfileId, x: Side)
    requires At(Of(sys, x), ToRecord)
    ensures var t := After(sys, w, Turn(x, RecordNext("", 0)));
      && Of(t, x) == Of(sys, x).(done := Of(sys, x).done + 1, phase := ToAcknowledge) && Of(t, Other(x)) == Of(sys, Other(x))
      && t.delivered == sys.delivered && t.store.tools == sys.store.tools
  {
    var request := Of(sys, x).batch[Of(sys, x).done];
    RecordKeepsTools(sys.store, w, request.id, Some(request.session));
  }

  lemma RecordKeepsTools(s: Store, w: ProfileId, id: RequestId, session: Option<SessionId>)
    ensures RecordResult(s, w, id, "", session, true, 0).0.tools == s.tools
  {
  }

  /** A watcher about to acknowledge hands its next request over. */
  lemma HandsOver(sys: Pair, w: ProfileId, x: Side) returns (turns: seq<Turn>)
    requires At(Of(sys, x), ToAcknowledge) && Callable(sys, w, Of(sys, x).batch[Of(sys, x).done])
    ensures ValidTurns(sys, w, turns) && NoBeat(turns)
    ensures var t := End(sys, w, turns);
      && t.delivered == sys.delivered + [Of(sys, x).batch[Of(sys, x).done].id]
      && Of(t, Other(x)) == Of(sys, Other(x)) && t.store.tools == sys.store.tools
  {
    var acknowledge, deliver := Turn(x, AcknowledgeNext), Turn(x, DeliverNext(true));
    AcknowledgeEffects(sys, w, x);
    var s1 := After(sys, w, acknowledge);
    DeliverEffects(s1, w, x);
    OneTurn(sys, w, acknowledge);
    OneTurn(s1, w, deliver);
    TurnsConcat(sys, w, [acknowledge], [deliver]);
    turns := [acknowledge] + [deliver];
  }

  /** A watcher with a remainder gets to the first request of it. */
  lemma Proceeds(sys: Pair, w: ProfileId, y: Side) returns (turns: seq<Turn>)
    requires Rest(Of(sys, y)) != [] && Callable(sys, w, Of(sys, y).batch[Of(sys, y).done])
    ensures ValidTurns(sys, w, turns) && NoBeat(turns)
    ensures var t := End(sys, w, turns);
      && At(Of(t, y), ToAcknowledge) && Of(t, y).batch[Of(t, y).done] == Rest(Of(sys, y))[0]
      && sys.delivered <= t.delivered && t.store.tools == sys.store.tools
  {
    var watcher := Of(sys, y);
    if watcher.phase == ToAcknowledge {
      turns := [];
    } else if watcher.phase == ToRecord {
      turns := RecordsThenNext(sys, w, y);
    } else {
      DeliverEffects(sys, w, y);
      var deliver := Turn(y, DeliverNext(true));
      var s1 := After(sys, w, deliver);
      var more := RecordsThenNext(s1, w, y);
      OneTurn(sys, w, deliver);
      TurnsConcat(sys, w, [deliver], more);
      turns := [deliver] + more;
    }
  }

  lemma RecordsThenNext(sys: Pair, w: ProfileId, y: Side) returns (turns: seq<Turn>)
    requires Of(sys, y).Round? && Of(sys, y).phase == ToRecord && Rest(Of(sys, y)) != []
    ensures ValidTurns(sys, w, turns) && NoBeat(turns)
    ensures var t := End(sys, w, turns);
      && At(Of(t, y), ToAcknowledge) && Of(t, y).batch[Of(t, y).done] == Rest(Of(sys, y))[0]
      && sys.delivered == t.delivered && t.store.tools == sys.store.tools
  {
    RecordEffects(sys, w, y);
    turns := [Turn(y, RecordNext("", 0))];
    OneTurn(sys, w, turns[0]);
  }

  /** Everything the two watchers may call becomes callable when the profile is registered with these tools. */
  lemma Registers(sys: Pair, w: ProfileId, x: Side, tools: set<string>)
    ensures var register := Turn(x, Remote(Event(w, 0, Node(RegisterProfile(tools)))));
      && Allowed(sys, w, register)
      && var t := After(sys, w, register);
         && Of(t, x) == Of(sys, x) && Of(t, Other(x)) == Of(sys, Other(x)) && t.delivered == sys.delivered
         && (forall request: Request | request.tool in tools :: Callable(t, w, request))
  {
    assert sys.enqueued + [] == sys.enqueued;
  }

  /** When both watchers are about to get to the same request, it is delivered twice. */
  lemma DeliversTwice(sys: Pair, w: ProfileId, x: Side) returns (turns: seq<Turn>)
    requires var me, other := Of(sys, x), Of(sys, Other(x));
      At(me, ToAcknowledge) && Rest(other) != [] && me.batch[me.done].id == Rest(other)[0].id
    ensures ValidTurns(sys, w, turns) && NoBeat(turns) && !Distinct(End(sys, w, turns).delivered)
  {
    var y := Other(x);
    var mine, current, next := Of(sys, x).batch[Of(sys, x).done], Of(sys, y).batch[Of(sys, y).done], Rest(Of(sys, y))[0];
    var register := Turn(x, Remote(Event(w, 0, Node(RegisterProfile({mine.tool, current.tool, next.tool})))));
    Registers(sys, w, x, {mine.tool, current.tool, next.tool});
    OneTurn(sys, w, register);
    var s1 := After(sys, w, register);
    var a := HandsOver(s1, w, x);
    var s2 := End(s1, w, a);
    var b := Proceeds(s2, w, y);
    var s3 := End(s2, w, b);
    var c := HandsOver(s3, w, y);
    TurnsConcat(s2, w, b, c);
    TurnsConcat(s1, w, a, b + c);
    TurnsConcat(sys, w, [register], a + (b + c));
    turns := [register] + (a + (b + c));
    Repeated(sys.delivered, s3.delivered, mine.id);
  }

  lemma Repeated(before: seq<RequestId>, later: seq<RequestId>, id: RequestId)
    requires before + [id] <= later
    ensures !Distinct(later + [id])
  {
    assert later[|before|] == id;
    assert (later + [id])[|before|] == (later + [id])[|later|];
  }

  /**
   After any run with clear heartbeats, a further heartbeat opens the way to a double delivery, before any
   other heartbeat, exactly when the other watcher has still to acknowledge something of its snapshot.
   */
  lemma TwoWatchersDeliverTwice(w: ProfileId, turns: seq<Turn>, x: Side, now: int)
    requires ValidTurns(Start, w, turns) && ClearTurns(Start, w, turns)
    requires Allowed(End(Start, w, turns), w, Turn(x, Beat(now)))
    ensures var sys := After(End(Start, w, turns), w, Turn(x, Beat(now)));
      (exists more :: ValidTurns(sys, w, more) && NoBeat(more) && !Distinct(End(sys, w, more).delivered))
      <==> Rest(Of(End(Start, w, turns), Other(x))) != []
  {
    var before := End(Start, w, turns);
    var beat := Turn(x, Beat(now));
    var sys := After(before, w, beat);
    TurnsKeep(Start, w, turns);
    if Rest(Of(before, Other(x))) == [] {
      TurnKeeps(before, w, beat);
      forall more | ValidTurns(sys, w, more) && NoBeat(more) ensures Distinct(End(sys, w, more).delivered) {
        NoBeatIsClear(sys, w, more);
        TurnsKeep(sys, w, more);
      }
    } else {
      SafeEitherWay(before, w, First);
      BeatTakes(Solo(before, x), w, now);
      BeatMeetsRest(before, w, x, now);
      var more := DeliversTwice(sys, w, x);
    }
  }

  lemma BeatMeetsRest(before: Pair, w: ProfileId, x: Side, now: int)
    requires SafeFor(before, w, x) && Allowed(before, w, Turn(x, Beat(now))) && Rest(Of(before, Other(x))) != []
    ensures var sys := After(before, w, Turn(x, Beat(now)));
      var me, other := Of(sys, x), Of(sys, Other(x));
      At(me, ToAcknowledge) && Rest(other) != [] && me.batch[me.done].id == Rest(other)[0].id
  {
    BeatTakes(Solo(before, x), w, now);
    var rest, pending := Rest(Of(before, Other(x))), ListOf(before.store.pending, w);
    assert Ids(rest)[0] == Ids(pending)[0];
  }

  /** For instance: one request waits and both watchers send their heartbeat before either acknowledges. */
  lemma BothStartDeliverTwice(w: ProfileId, tool: string, id: RequestId, now: int) returns (turns: seq<Turn>)
    ensures ValidTurns(Start, w, turns) && !Distinct(End(Start, w, turns).delivered)
  {
    var register := Turn(First, Remote(Event(w, now, Node(RegisterProfile({tool})))));
    var enqueue := Turn(First, Remote(Event(w, now, Lists(EnqueueStep(tool, None, id)))));
    var beat, again := Turn(First, Beat(now)), Turn(Second, Beat(now));
    OneRequestWaits(w, tool, id, now);
    var s1 := After(Start, w, register);
    var s2 := After(s1, w, enqueue);
    assert Solo(s2, First) == OneRequest(w, tool, id, now);
    BeatTakes(Solo(s2, First), w, now);
    var s3 := After(s2, w, beat);
    BeatTakes(Solo(s3, Second), w, now);
    var s4 := After(s3, w, again);
    var more := DeliversTwice(s4, w, Second);
    TurnsPrepended(s3, w, again, more);
    TurnsPrepended(s2, w, beat, [again] + more);
    TurnsPrepended(s1, w, enqueue, [beat] + ([again] + more));
    TurnsPrepended(Start, w, register, [enqueue] + ([beat] + ([again] + more)));
    turns := [register] + ([enqueue] + ([beat] + ([again] + more)));
  }
}
