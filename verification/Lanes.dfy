/**
 Replies to the principal's messages (astrata/comms/runtime.py) over the durable message lane
 (astrata/comms/lanes.py). A record's id is its position in the table.
 */
module Lanes {
  import opened Agents
  import opened Options
  import opened Text

  datatype Channel = PrincipalChannel | OperatorChannel | OtherChannel

  datatype Status = Queued | Delivered | Acknowledged | Resolved

  /** `answers` is set on replies: the id of the message they answer. */
  datatype Record = Record(sender: Party, recipient: Party, channel: Channel, status: Status,
                           securityLevel: string, confidentiality: string, answers: Option<nat>)

  type Table = seq<Record>

  // ---------- who answers ----------

  /** Everything outside that decides how one message is answered, whatever it may be. */
  datatype Conditions = Conditions(
    fails: bool, answeredFromState: bool, becomesWork: bool,
    routeAccepted: bool, providerKnown: bool, providerCompletes: bool,
    receptionConfigured: bool, receptionCompletes: bool, localAnswers: bool)

  datatype Action = DirectReply | MaterializeWork | FailoverReply | DegradedReply

  datatype Answer = Answer(lane: Party, action: Action)

  function SecurityLevel(m: Record): string {
    Lower(Strip(if m.securityLevel != "" then m.securityLevel
                else if m.confidentiality != "" then m.confidentiality else "normal"))
  }

  function LocalFailover(c: Conditions): Answer {
    if c.localAnswers then Answer(Local, FailoverReply) else Answer(Fallback, DegradedReply)
  }

  function ReceptionFailover(agents: Registry, c: Conditions): Answer {
    if Reception !in agents || !Available(agents[Reception]) || !c.receptionConfigured || !c.receptionCompletes
    then LocalFailover(c)
    else Answer(Reception, FailoverReply)
  }

  function PrimeUnavailable(agents: Registry, m: Record, c: Conditions): Answer {
    var chosen := Choice(agents, Prime, SecurityLevel(m));
    if chosen == Some(Reception) then ReceptionFailover(agents, c)
    else if chosen == Some(Local) then LocalFailover(c)
    else Answer(Fallback, DegradedReply)
  }

  /** Prime's provider gives an answer itself. */
  predicate PrimeAnswers(c: Conditions) {
    c.routeAccepted && c.providerKnown && c.providerCompletes
  }

  function AnswerTo(agents: Registry, m: Record, c: Conditions): Answer {
    if c.answeredFromState then Answer(m.recipient, DirectReply)
    else if c.becomesWork then Answer(m.recipient, MaterializeWork)
    else if m.recipient == Local then Answer(Local, if c.localAnswers then DirectReply else DegradedReply)
    else if PrimeAnswers(c) then Answer(Prime, DirectReply)
    else PrimeUnavailable(Bootstrapped(agents), m, c)
  }

  /** Prime's stand-in is none, or an available agent that has no way to answer an open message. */
  predicate StandInIsMute(all: Registry, m: Record)
    requires Prime in all
  {
    all[Prime].standIn == None ||
    (var id := all[Prime].standIn.value;
     id != Reception && id != Local && !Confidential(SecurityLevel(m)) && id in all && Available(all[id]))
  }

  /**
   Only an open message reaches Reception, and only as configured. Otherwise Local answers if it can,
   unless the stand-in is mute, and what nobody answers gets the fallback text.
   */
  lemma FailoverExactly(agents: Registry, m: Record, c: Conditions)
    ensures var all, lane := Bootstrapped(agents), PrimeUnavailable(Bootstrapped(agents), m, c).lane;
      && (lane == Reception <==>
            && !Confidential(SecurityLevel(m)) && all[Prime].standIn == Some(Reception) && Available(all[Reception])
            && c.receptionConfigured && c.receptionCompletes)
      && (lane == Local <==> lane != Reception && c.localAnswers && !StandInIsMute(all, m))
      && (lane == Reception || lane == Local || lane == Fallback)
  {
    OtherStandInExactly(Bootstrapped(agents), SecurityLevel(m), Reception);
  }

  // ---------- the table ----------

  predicate OnLane(channel: Channel) {
    channel == PrincipalChannel || channel == OperatorChannel
  }

  predicate IsPending(m: Record, lane: Party) {
    && OnLane(m.channel) && m.recipient == lane
    && (m.sender == Principal || m.sender == Operator)
    && (m.status == Queued || m.status == Delivered)
  }

  /** Ids of the messages waiting for the lane, oldest first. */
  function Pending(table: Table, lane: Party): seq<nat> {
    if table == [] then []
    else
      var n := |table| - 1;
      Pending(table[..n], lane) + (if IsPending(table[n], lane) then [n] else [])
  }

  function Reply(lane: Party, id: nat): Record {
    Record(lane, Principal, PrincipalChannel, Delivered, "", "", Some(id))
  }

  function WithStatus(table: Table, id: nat, status: Status): Table {
    if id < |table| && OnLane(table[id].channel) then table[id := table[id].(status := status)] else table
  }

  /** Handling one message: the reply is sent, then the message is resolved; a failure leaves everything as it was. */
  function Handled(table: Table, agents: Registry, id: nat, c: Conditions): Table
    requires id < |table|
  {
    if c.fails then table
    else WithStatus(table + [Reply(AnswerTo(agents, table[id], c).lane, id)], id, Resolved)
  }

  type Outside = nat -> Conditions

  /** How many of the messages are handled: those before the first failure. */
  function Served(ids: seq<nat>, outside: Outside): (n: nat)
    ensures n <= |ids| && forall j | 0 <= j < n :: !outside(ids[j]).fails
    ensures n < |ids| ==> outside(ids[n]).fails
  {
    if ids == [] then 0
    else
      var last := |ids| - 1;
      var n := Served(ids[..last], outside);
      if n == last && !outside(ids[last]).fails then last + 1 else n
  }

  predicate Waiting(table: Table, lane: Party, id: nat) {
    id < |table| && IsPending(table[id], lane)
  }

  ghost predicate AllWaiting(table: Table, lane: Party, ids: seq<nat>) {
    && (forall k | 0 <= k < |ids| :: Waiting(table, lane, ids[k]))
    && (forall i, j | 0 <= i < j < |ids| :: ids[i] < ids[j])
  }

  function ResolvedIn(table: Table, ids: seq<nat>): (r: Table)
    ensures |r| == |table|
  {
    seq(|table|, i requires 0 <= i < |table| => if i in ids then table[i].(status := Resolved) else table[i])
  }

  function ReplyTo(table: Table, agents: Registry, id: nat, outside: Outside): Record {
    Reply(if id < |table| then AnswerTo(agents, table[id], outside(id)).lane else Fallback, id)
  }

  function RepliesTo(table: Table, agents: Registry, ids: seq<nat>, outside: Outside): (r: Table)
    ensures |r| == |ids|
  {
    seq(|ids|, k requires 0 <= k < |ids| => ReplyTo(table, agents, ids[k], outside))
  }

  /** The messages are resolved and their replies added in order. */
  function Answered(table: Table, agents: Registry, ids: seq<nat>, outside: Outside): Table {
    ResolvedIn(table, ids) + RepliesTo(table, agents, ids, outside)
  }

  function Taken(table: Table, lane: Party, limit: int): seq<nat> {
    var pending := Pending(table, lane);
    var most := if limit < 1 then 1 else limit;
    if lane != Prime && lane != Local then []
    else if |pending| <= most then pending else pending[..most]
  }

  /** One pass over the lane: what was waiting when it began, up to the limit and the first failure. */
  function Processed(table: Table, agents: Registry, lane: Party, limit: int, outside: Outside): Table {
    var ids := Taken(table, lane, limit);
    Answered(table, agents, ids[..Served(ids, outside)], outside)
  }

  lemma {:induction false} PendingExactly(table: Table, lane: Party)
    ensures AllWaiting(table, lane, Pending(table, lane))
    ensures forall id: nat :: id in Pending(table, lane) <==> Waiting(table, lane, id)
  {
    if table != [] {
      var n := |table| - 1;
      PendingExactly(table[..n], lane);
      var before := Pending(table[..n], lane);
      forall k | 0 <= k < |before| ensures before[k] < n && Waiting(table, lane, before[k]) {
        assert Waiting(table[..n], lane, before[k]);
      }
      forall id: nat ensures id in Pending(table, lane) <==> Waiting(table, lane, id) {
        assert id in before <==> Waiting(table[..n], lane, id);
      }
    }
  }

  lemma TakenWaiting(table: Table, lane: Party, limit: int)
    ensures AllWaiting(table, lane, Taken(table, lane, limit))
  {
    PendingExactly(table, lane);
  }

  /** Handling the next waiting message extends the closed form by one. */
  lemma AnsweredOneMore(table: Table, agents: Registry, lane: Party, ids: seq<nat>, outside: Outside, n: nat)
    requires AllWaiting(table, lane, ids) && n < |ids|
    ensures ids[n] < |table|
    ensures var before := Answered(table, agents, ids[..n], outside);
      !outside(ids[n]).fails ==>
        Handled(before, agents, ids[n], outside(ids[n])) == Answered(table, agents, ids[..n + 1], outside)
  {
    assert Waiting(table, lane, ids[n]);
    var before := Answered(table, agents, ids[..n], outside);
    forall k | 0 <= k < n ensures ids[..n][k] != ids[n] {
    }
    assert before[ids[n]] == table[ids[n]];
    forall i | 0 <= i < |table| ensures i in ids[..n + 1] <==> i in ids[..n] || i == ids[n] {
      assert ids[..n + 1] == ids[..n] + [ids[n]];
    }
    if !outside(ids[n]).fails {
      assert Handled(before, agents, ids[n], outside(ids[n])) == Answered(table, agents, ids[..n + 1], outside);
    }
  }

  /** Adding the default agents again changes no answer. */
  lemma HandledAlike(table: Table, some: Registry, others: Registry, id: nat, c: Conditions)
    requires id < |table| && Bootstrapped(some) == Bootstrapped(others)
    ensures Handled(table, some, id, c) == Handled(table, others, id, c)
  {
  }

  lemma NothingAnswered(table: Table, agents: Registry, outside: Outside)
    ensures Answered(table, agents, [], outside) == table
  {
  }

  /** The first `done` messages have been handled without failure. */
  ghost predicate HandledSoFar(table: Table, agents: Registry, ids: seq<nat>, outside: Outside, done: nat, after: Table) {
    && done <= |ids| && (forall j | 0 <= j < done :: !outside(ids[j]).fails)
    && after == Answered(table, agents, ids[..done], outside)
  }

  lemma HandleNext(table: Table, agents: Registry, lane: Party, ids: seq<nat>, outside: Outside, done: nat, after: Table, now: Registry)
    requires AllWaiting(table, lane, ids) && HandledSoFar(table, agents, ids, outside, done, after) && done < |ids|
    requires Bootstrapped(now) == Bootstrapped(agents)
    ensures ids[done] < |after|
    ensures var next := Handled(after, now, ids[done], outside(ids[done]));
      if outside(ids[done]).fails then next == after && after == Answered(table, agents, ids[..Served(ids, outside)], outside)
      else HandledSoFar(table, agents, ids, outside, done + 1, next)
  {
    assert Waiting(table, lane, ids[done]);
    if !outside(ids[done]).fails {
      AnsweredOneMore(table, agents, lane, ids, outside, done);
      HandledAlike(after, now, agents, ids[done], outside(ids[done]));
    } else {
      assert Served(ids, outside) == done;
    }
  }

  lemma AllHandled(table: Table, agents: Registry, ids: seq<nat>, outside: Outside, after: Table)
    requires HandledSoFar(table, agents, ids, outside, |ids|, after)
    ensures after == Answered(table, agents, ids[..Served(ids, outside)], outside)
  {
  }

  // ---------- replies ----------

  /** The replies to a message. */
  function Replies(table: Table, id: nat): set<nat> {
    set j: nat | j < |table| && table[j].answers == Some(id)
  }

  // ---------- runs ----------

  datatype Event =
    | Arrive(message: Record)
    | Process(lane: Party, limit: int, agents: Registry, outside: Outside)
    | SendAndHandle(lane: Party, level: string, agents: Registry, conditions: Conditions)
    | Close(id: nat, status: Status)

  /** What the user interface sends for the principal and has handled at once. */
  function Sent(lane: Party, level: string): Record {
    Record(Principal, lane, PrincipalChannel, Delivered, level, "", None)
  }

  /** Messages arrive unanswered; other code acknowledges or resolves, and never reopens. */
  predicate Valid(e: Event) {
    match e
    case Arrive(m) => m.answers == None
    case Process(_, _, _, _) => true
    case SendAndHandle(lane, _, _, _) => lane == Prime || lane == Local
    case Close(_, status) => status == Acknowledged || status == Resolved
  }

  function Apply(table: Table, e: Event): Table {
    match e
    case Arrive(m) => table + [m]
    case Process(lane, limit, agents, outside) => Processed(table, agents, lane, limit, outside)
    case SendAndHandle(lane, level, agents, c) => Handled(table + [Sent(lane, level)], agents, |table|, c)
    case Close(id, status) => WithStatus(table, id, status)
  }

  function RunEnd(table: Table, events: seq<Event>): Table {
    if events == [] then table else Apply(RunEnd(table, events[..|events| - 1]), events[|events| - 1])
  }

  predicate IsClosed(m: Record) {
    m.status == Acknowledged || m.status == Resolved
  }

  /** A reply answers an older message that is closed by now, is the only one to it, and comes from a proper lane. */
  ghost predicate Inv(table: Table) {
    && (forall j | 0 <= j < |table| && table[j].answers.Some? :: ProperReply(table, j))
    && (forall i, j | 0 <= i < j < |table| && table[i].answers.Some? :: table[i].answers != table[j].answers)
  }

  /** Who may answer: the lane itself, Local, the fallback text, and Reception for Prime's open messages. */
  predicate MayAnswer(lane: Party, m: Record) {
    || lane == m.recipient
    || lane == Local
    || (m.recipient == Prime && lane == Fallback)
    || (m.recipient == Prime && lane == Reception && !Confidential(SecurityLevel(m)))
  }

  ghost predicate ProperReply(table: Table, j: nat)
    requires j < |table| && table[j].answers.Some?
  {
    var i := table[j].answers.value;
    && i < j && IsClosed(table[i]) && table[j].recipient == Principal
    && (table[i].recipient == Prime || table[i].recipient == Local)
    && MayAnswer(table[j].sender, table[i])
  }

  lemma AnswerAllowed(agents: Registry, m: Record, c: Conditions)
    requires m.recipient == Prime || m.recipient == Local
    ensures MayAnswer(AnswerTo(agents, m, c).lane, m)
  {
    FailoverExactly(agents, m, c);
  }

  lemma CloseKeeps(table: Table, id: nat, status: Status)
    requires Inv(table) && (status == Acknowledged || status == Resolved)
    ensures Inv(WithStatus(table, id, status))
  {
    var after := WithStatus(table, id, status);
    forall j | 0 <= j < |after| && after[j].answers.Some? ensures ProperReply(after, j) {
      assert ProperReply(table, j);
    }
  }

  lemma AnswersAt(table: Table, agents: Registry, ids: seq<nat>, outside: Outside, j: nat)
    requires j < |table| + |ids|
    ensures Answered(table, agents, ids, outside)[j].answers == if j < |table| then table[j].answers else Some(ids[j - |table|])
  {
  }

  lemma AnsweredKeeps(table: Table, agents: Registry, lane: Party, ids: seq<nat>, outside: Outside)
    requires Inv(table) && AllWaiting(table, lane, ids) && (lane == Prime || lane == Local)
    ensures Inv(Answered(table, agents, ids, outside))
  {
    var after := Answered(table, agents, ids, outside);
    forall j | 0 <= j < |after| && after[j].answers.Some? ensures ProperReply(after, j) {
      if j < |table| {
        EarlierReplyProper(table, agents, ids, outside, j);
      } else {
        NewReplyProper(table, agents, lane, ids, outside, j - |table|);
      }
    }
    forall i, j | 0 <= i < j < |after| && after[i].answers.Some? ensures after[i].answers != after[j].answers {
      DifferentAnswers(table, agents, lane, ids, outside, i, j);
    }
  }

  lemma EarlierReplyProper(table: Table, agents: Registry, ids: seq<nat>, outside: Outside, j: nat)
    requires j < |table| && table[j].answers.Some? && ProperReply(table, j)
    ensures Answered(table, agents, ids, outside)[j].answers.Some?
    ensures ProperReply(Answered(table, agents, ids, outside), j)
  {
  }

  lemma DifferentAnswers(table: Table, agents: Registry, lane: Party, ids: seq<nat>, outside: Outside, i: nat, j: nat)
    requires Inv(table) && AllWaiting(table, lane, ids)
    requires i < j < |table| + |ids| && Answered(table, agents, ids, outside)[i].answers.Some?
    ensures Answered(table, agents, ids, outside)[i].answers != Answered(table, agents, ids, outside)[j].answers
  {
    AnswersAt(table, agents, ids, outside, i);
    AnswersAt(table, agents, ids, outside, j);
    if i < |table| <= j {
      assert ProperReply(table, i) && Waiting(table, lane, ids[j - |table|]);
    }
  }

  lemma NewReplyProper(table: Table, agents: Registry, lane: Party, ids: seq<nat>, outside: Outside, k: nat)
    requires AllWaiting(table, lane, ids) && (lane == Prime || lane == Local) && k < |ids|
    ensures var after := Answered(table, agents, ids, outside);
      after[|table| + k].answers == Some(ids[k]) && ProperReply(after, |table| + k)
  {
    assert Waiting(table, lane, ids[k]) && ids[k] in ids;
    AnswerAllowed(agents, table[ids[k]], outside(ids[k]));
  }

  lemma ArriveKeeps(table: Table, m: Record)
    requires Inv(table) && m.answers == None
    ensures Inv(table + [m])
  {
    forall j | 0 <= j < |table| && table[j].answers.Some? ensures ProperReply(table + [m], j) {
      assert ProperReply(table, j);
    }
  }

  lemma HandledIsAnswered(table: Table, agents: Registry, id: nat, c: Conditions)
    requires id < |table| && OnLane(table[id].channel) && !c.fails
    ensures Handled(table, agents, id, c) == Answered(table, agents, [id], _ => c)
  {
    assert RepliesTo(table, agents, [id], _ => c) == [Reply(AnswerTo(agents, table[id], c).lane, id)];
    assert ResolvedIn(table, [id]) == WithStatus(table, id, Resolved);
  }

  lemma HandledKeeps(table: Table, agents: Registry, lane: Party, id: nat, c: Conditions)
    requires Inv(table) && Waiting(table, lane, id) && (lane == Prime || lane == Local)
    ensures Inv(Handled(table, agents, id, c))
  {
    if !c.fails {
      HandledIsAnswered(table, agents, id, c);
      AnsweredKeeps(table, agents, lane, [id], _ => c);
    }
  }

  lemma StepKeeps(table: Table, e: Event)
    requires Inv(table) && Valid(e)
    ensures Inv(Apply(table, e))
  {
    match e
    case Arrive(m) =>
      ArriveKeeps(table, m);
    case SendAndHandle(lane, level, agents, c) =>
      ArriveKeeps(table, Sent(lane, level));
      HandledKeeps(table + [Sent(lane, level)], agents, lane, |table|, c);
    case Process(lane, limit, agents, outside) =>
      TakenWaiting(table, lane, limit);
      var ids := Taken(table, lane, limit);
      if lane == Prime || lane == Local {
        AnsweredKeeps(table, agents, lane, ids[..Served(ids, outside)], outside);
      } else {
        NothingAnswered(table, agents, outside);
      }
    case Close(id, status) =>
      CloseKeeps(table, id, status);
  }

  lemma {:induction false} RunKeeps(events: seq<Event>)
    requires forall e | e in events :: Valid(e)
    ensures Inv(RunEnd([], events))
  {
    if events != [] {
      RunKeeps(events[..|events| - 1]);
      StepKeeps(RunEnd([], events[..|events| - 1]), events[|events| - 1]);
    }
  }

  /** Whatever happened, no message has more than one reply, and an answered one waits for nobody. */
  lemma AtMostOneReply(events: seq<Event>, id: nat, lane: Party)
    requires forall e | e in events :: Valid(e)
    ensures var table := RunEnd([], events);
      && |Replies(table, id)| <= 1
      && (Replies(table, id) != {} ==> id !in Pending(table, lane))
  {
    var table := RunEnd([], events);
    RunKeeps(events);
    PendingExactly(table, lane);
    if j :| j in Replies(table, id) {
      assert ProperReply(table, j);
      assert Replies(table, id) == {j};
    }
  }

  /**
   What one pass over a lane does after any run: the messages taken before the first failure get exactly
   one reply each and end resolved; no other message gets a reply or changes.
   */
  lemma PassAnswersExactly(events: seq<Event>, lane: Party, limit: int, agents: Registry, outside: Outside, id: nat)
    requires forall e | e in events :: Valid(e)
    requires id < |RunEnd([], events)|
    ensures var table := RunEnd([], events);
      var after := Processed(table, agents, lane, limit, outside);
      var ids := Taken(table, lane, limit);
      if id in ids[..Served(ids, outside)]
      then Replies(table, id) == {} && |Replies(after, id)| == 1 && after[id] == table[id].(status := Resolved)
      else Replies(after, id) == Replies(table, id) && after[id] == table[id]
  {
    var table := RunEnd([], events);
    var ids := Taken(table, lane, limit)[..Served(Taken(table, lane, limit), outside)];
    TakenWaiting(table, lane, limit);
    if id !in ids {
      NotAnswered(table, agents, ids, outside, id);
    } else {
      var k :| 0 <= k < |ids| && ids[k] == id;
      AnsweredOnce(table, agents, lane, ids, outside, k);
      assert Waiting(table, lane, ids[k]);
      PendingExactly(table, lane);
      AtMostOneReply(events, id, lane);
    }
  }

  lemma RepliesAfter(table: Table, agents: Registry, ids: seq<nat>, outside: Outside, id: nat, j: nat)
    ensures j in Replies(Answered(table, agents, ids, outside), id)
      <==> j in Replies(table, id) || (|table| <= j < |table| + |ids| && ids[j - |table|] == id)
  {
    if j < |table| + |ids| {
      AnswersAt(table, agents, ids, outside, j);
    }
  }

  lemma NotAnswered(table: Table, agents: Registry, ids: seq<nat>, outside: Outside, id: nat)
    requires id !in ids
    ensures Replies(Answered(table, agents, ids, outside), id) == Replies(table, id)
  {
    forall j: nat ensures j in Replies(Answered(table, agents, ids, outside), id) <==> j in Replies(table, id) {
      RepliesAfter(table, agents, ids, outside, id, j);
    }
  }

  lemma AnsweredOnce(table: Table, agents: Registry, lane: Party, ids: seq<nat>, outside: Outside, k: nat)
    requires AllWaiting(table, lane, ids) && k < |ids|
    ensures Replies(Answered(table, agents, ids, outside), ids[k]) == Replies(table, ids[k]) + {|table| + k}
  {
    forall j: nat
      ensures j in Replies(Answered(table, agents, ids, outside), ids[k]) <==> j in Replies(table, ids[k]) || j == |table| + k
    {
      RepliesAfter(table, agents, ids, outside, ids[k], j);
    }
  }

  /** After any run, a confidential message to Prime was answered by nobody but Prime, Local or the fallback text. */
  lemma ConfidentialStaysLocal(events: seq<Event>, j: nat)
    requires forall e | e in events :: Valid(e)
    requires var table := RunEnd([], events);
      j < |table| && table[j].answers.Some? && table[j].answers.value < |table|
      && Confidential(SecurityLevel(table[table[j].answers.value]))
    ensures var table := RunEnd([], events);
      table[j].sender == Prime || table[j].sender == Local || table[j].sender == Fallback
  {
    RunKeeps(events);
    assert ProperReply(RunEnd([], events), j);
  }

  /** And when Prime could not answer such a message itself, only Local or the fallback text does. */
  lemma ConfidentialFailover(agents: Registry, m: Record, c: Conditions)
    requires m.recipient == Prime && Confidential(SecurityLevel(m))
    requires !c.answeredFromState && !c.becomesWork && !PrimeAnswers(c)
    ensures AnswerTo(agents, m, c) == LocalFailover(c) || AnswerTo(agents, m, c) == Answer(Fallback, DegradedReply)
  {
    FailoverExactly(agents, m, c);
  }

  // ---------- repeated passes ----------

  datatype Pass = Pass(agents: Registry, outside: Outside)

  function AfterPasses(table: Table, lane: Party, limit: int, passes: seq<Pass>): Table {
    if passes == [] then table
    else
      var last := passes[|passes| - 1];
      Processed(AfterPasses(table, lane, limit, passes[..|passes| - 1]), last.agents, lane, limit, last.outside)
  }

  /** Handling raises for these messages on every pass, and for no others. */
  ghost predicate Raises(passes: seq<Pass>, bad: nat -> bool) {
    forall pass | pass in passes :: Fails(pass.outside, bad)
  }

  ghost predicate Fails(outside: Outside, bad: nat -> bool) {
    forall id :: outside(id).fails == bad(id)
  }

  /** The position of the first message whose handling raises. */
  function FirstBad(ids: seq<nat>, bad: nat -> bool): (n: nat)
    ensures n <= |ids| && forall j | 0 <= j < n :: !bad(ids[j])
    ensures n < |ids| ==> bad(ids[n])
  {
    if ids == [] then 0
    else if bad(ids[0]) then 0
    else
      var n := FirstBad(ids[1..], bad);
      assert forall j | 0 < j < n + 1 :: ids[j] == ids[1..][j - 1];
      n + 1
  }

  function Least(a: nat, b: nat): nat {
    if a < b then a else b
  }

  /** How many messages one pass may take. */
  function Most(limit: int): nat {
    if limit < 1 then 1 else limit
  }

  /** And how many a number of passes. */
  function Capacity(passes: nat, limit: int): nat {
    if passes == 0 then 0 else Capacity(passes - 1, limit) + Most(limit)
  }

  lemma {:induction false} CapacityIs(passes: nat, limit: int)
    ensures Capacity(passes, limit) == passes * Most(limit)
  {
    if passes > 0 {
      CapacityIs(passes - 1, limit);
      assert (passes - 1) * Most(limit) + Most(limit) == passes * Most(limit);
    }
  }

  lemma {:induction false} AscendingUnique(a: seq<nat>, b: seq<nat>)
    requires forall i, j | 0 <= i < j < |a| :: a[i] < a[j]
    requires forall i, j | 0 <= i < j < |b| :: b[i] < b[j]
    requires forall x :: x in a <==> x in b
    ensures a == b
    decreases |a|
  {
    assert |b| == 0 || b[0] in a;
    if a != [] {
      assert a[0] in b;
      forall x ensures x in a[1..] <==> x in b[1..] {
        assert x in a <==> x == a[0] || x in a[1..];
        assert x in b <==> x == b[0] || x in b[1..];
      }
      AscendingUnique(a[1..], b[1..]);
    }
  }

  lemma AnsweredWaiting(table: Table, agents: Registry, lane: Party, ids: seq<nat>, outside: Outside, id: nat)
    requires lane == Prime || lane == Local
    ensures Waiting(Answered(table, agents, ids, outside), lane, id) <==> Waiting(table, lane, id) && id !in ids
  {
    if id < |table| + |ids| {
      AnswersAt(table, agents, ids, outside, id);
    }
  }

  /** Answering the oldest waiting messages leaves the others waiting, in the same order. */
  lemma PendingShrinks(table: Table, agents: Registry, lane: Party, outside: Outside, k: nat)
    requires lane == Prime || lane == Local
    requires k <= |Pending(table, lane)|
    ensures var ids := Pending(table, lane); Pending(Answered(table, agents, ids[..k], outside), lane) == ids[k..]
  {
    var ids := Pending(table, lane);
    var after := Answered(table, agents, ids[..k], outside);
    PendingExactly(table, lane);
    PendingExactly(after, lane);
    forall id: nat ensures id in Pending(after, lane) <==> id in ids[k..] {
      AnsweredWaiting(table, agents, lane, ids[..k], outside, id);
      InOneHalf(ids, k, id);
    }
    AscendingUnique(Pending(after, lane), ids[k..]);
  }

  lemma InOneHalf(ids: seq<nat>, k: nat, id: nat)
    requires k <= |ids| && forall i, j | 0 <= i < j < |ids| :: ids[i] < ids[j]
    ensures id in ids && id !in ids[..k] <==> id in ids[k..]
  {
    assert ids == ids[..k] + ids[k..];
    forall i, j | 0 <= i < k && k <= j < |ids| ensures ids[i] != ids[j] {
    }
  }

  lemma ServedIsLeast(ids: seq<nat>, outside: Outside, bad: nat -> bool, m: nat)
    requires m <= |ids| && Fails(outside, bad)
    ensures Served(ids[..m], outside) == Least(m, FirstBad(ids, bad))
  {
    var n, f := Served(ids[..m], outside), FirstBad(ids, bad);
    assert n < m ==> bad(ids[n]);
    assert forall j | 0 <= j < n :: ids[..m][j] == ids[j];
  }

  /** One pass takes the oldest messages up to its limit or the first that raises, whichever comes first. */
  lemma PassShrinks(table: Table, agents: Registry, lane: Party, limit: int, outside: Outside, bad: nat -> bool)
    requires lane == Prime || lane == Local
    requires Fails(outside, bad)
    ensures var ids := Pending(table, lane);
      var k := Least(Most(limit), FirstBad(ids, bad));
      && Processed(table, agents, lane, limit, outside) == Answered(table, agents, ids[..k], outside)
      && Pending(Processed(table, agents, lane, limit, outside), lane) == ids[k..]
  {
    var ids := Pending(table, lane);
    TakenAndServed(table, lane, limit, outside, bad);
    PendingShrinks(table, agents, lane, outside, Least(Most(limit), FirstBad(ids, bad)));
  }

  lemma TakenAndServed(table: Table, lane: Party, limit: int, outside: Outside, bad: nat -> bool)
    requires (lane == Prime || lane == Local) && Fails(outside, bad)
    ensures var ids, taken := Pending(table, lane), Taken(table, lane, limit);
      taken[..Served(taken, outside)] == ids[..Least(Most(limit), FirstBad(ids, bad))]
  {
    var ids := Pending(table, lane);
    var m := Least(Most(limit), |ids|);
    assert Taken(table, lane, limit) == ids[..m];
    ServedIsLeast(ids, outside, bad, m);
  }

  lemma FirstBadOfRest(ids: seq<nat>, bad: nat -> bool, k: nat)
    requires k <= FirstBad(ids, bad)
    ensures FirstBad(ids[k..], bad) == FirstBad(ids, bad) - k
  {
  }

  /**
   After n passes the lane's oldest n times the limit are gone, but never the first message whose handling
   raises, nor anything younger.
   */
  lemma {:induction false} PassesLeave(table: Table, lane: Party, limit: int, passes: seq<Pass>, bad: nat -> bool)
    requires (lane == Prime || lane == Local) && Raises(passes, bad)
    ensures Left(Pending(table, lane), bad, Capacity(|passes|, limit), Pending(AfterPasses(table, lane, limit, passes), lane))
  {
    if passes != [] {
      PassesLeave(table, lane, limit, passes[..|passes| - 1], bad);
      LastPassLeaves(Pending(table, lane), AfterPasses(table, lane, limit, passes[..|passes| - 1]),
                     lane, limit, passes[|passes| - 1], bad, |passes| - 1);
    }
  }

  lemma LastPassLeaves(ids: seq<nat>, before: Table, lane: Party, limit: int, pass: Pass, bad: nat -> bool, n: nat)
    requires (lane == Prime || lane == Local) && Fails(pass.outside, bad)
    requires Left(ids, bad, Capacity(n, limit), Pending(before, lane))
    ensures Left(ids, bad, Capacity(n + 1, limit), Pending(Processed(before, pass.agents, lane, limit, pass.outside), lane))
  {
    PassLeaves(before, lane, limit, pass, bad);
    LeftInTurn(ids, bad, Capacity(n, limit), Pending(before, lane), Most(limit),
               Pending(Processed(before, pass.agents, lane, limit, pass.outside), lane));
  }

  /** What is left of these messages once so many could be taken. */
  ghost predicate Left(ids: seq<nat>, bad: nat -> bool, taken: nat, rest: seq<nat>) {
    rest == ids[Least(taken, FirstBad(ids, bad))..]
  }

  lemma PassLeaves(table: Table, lane: Party, limit: int, pass: Pass, bad: nat -> bool)
    requires lane == Prime || lane == Local
    requires Fails(pass.outside, bad)
    ensures Left(Pending(table, lane), bad, Most(limit), Pending(Processed(table, pass.agents, lane, limit, pass.outside), lane))
  {
    PassShrinks(table, pass.agents, lane, limit, pass.outside, bad);
  }

  lemma LeftInTurn(ids: seq<nat>, bad: nat -> bool, a: nat, some: seq<nat>, b: nat, rest: seq<nat>)
    requires Left(ids, bad, a, some) && Left(some, bad, b, rest)
    ensures Left(ids, bad, a + b, rest)
  {
    FirstBadOfRest(ids, bad, Least(a, FirstBad(ids, bad)));
  }

  /**
   When a message is answered: the one at position p of its lane no longer waits after n passes exactly when
   p is below n times the limit and no message up to it raises. It has a reply from then on, and until then none more
   than it had. One message that always raises therefore keeps every younger one of its lane waiting.
   */
  lemma AnsweredWithinExactly(table: Table, lane: Party, limit: int, passes: seq<Pass>, bad: nat -> bool, p: nat)
    requires (lane == Prime || lane == Local) && Raises(passes, bad) && p < |Pending(table, lane)|
    ensures var ids := Pending(table, lane);
      var after := AfterPasses(table, lane, limit, passes);
      && (Waiting(after, lane, ids[p]) <==> |passes| * (if limit < 1 then 1 else limit) <= p || exists q | 0 <= q <= p :: bad(ids[q]))
      && (if Waiting(after, lane, ids[p]) then Replies(after, ids[p]) == Replies(table, ids[p]) else Replies(after, ids[p]) != {})
  {
    PendingExactly(table, lane);
    PendingExactly(AfterPasses(table, lane, limit, passes), lane);
    PassesLeave(table, lane, limit, passes, bad);
    CapacityIs(|passes|, limit);
    LeftExactly(Pending(table, lane), bad, Capacity(|passes|, limit), p);
    RepliesAfterPasses(table, lane, limit, passes, bad, Pending(table, lane)[p]);
  }

  lemma LeftExactly(ids: seq<nat>, bad: nat -> bool, n: nat, p: nat)
    requires p < |ids| && forall i, j | 0 <= i < j < |ids| :: ids[i] < ids[j]
    ensures ids[p] in ids[Least(n, FirstBad(ids, bad))..] <==> n <= p || exists q | 0 <= q <= p :: bad(ids[q])
  {
    var k := Least(n, FirstBad(ids, bad));
    InOneHalf(ids, k, ids[p]);
    assert k <= p ==> ids[k..][p - k] == ids[p];
    assert p < k ==> ids[..k][p] == ids[p];
  }

  lemma {:induction false} RepliesAfterPasses(table: Table, lane: Party, limit: int, passes: seq<Pass>, bad: nat -> bool, id: nat)
    requires (lane == Prime || lane == Local) && Raises(passes, bad) && Waiting(table, lane, id)
    ensures var after := AfterPasses(table, lane, limit, passes);
      if Waiting(after, lane, id) then Replies(after, id) == Replies(table, id) else Replies(after, id) != {}
  {
    if passes != [] {
      var n := |passes| - 1;
      var before := AfterPasses(table, lane, limit, passes[..n]);
      RepliesAfterPasses(table, lane, limit, passes[..n], bad, id);
      RepliesAfterPass(before, passes[n].agents, lane, limit, passes[n].outside, bad, id);
    }
  }

  lemma RepliesAfterPass(table: Table, agents: Registry, lane: Party, limit: int, outside: Outside, bad: nat -> bool, id: nat)
    requires (lane == Prime || lane == Local) && Fails(outside, bad)
    ensures RepliedOrWaits(table, Processed(table, agents, lane, limit, outside), lane, id)
  {
    var ids := Pending(table, lane);
    var k := Least(Most(limit), FirstBad(ids, bad));
    PassShrinks(table, agents, lane, limit, outside, bad);
    PendingExactly(table, lane);
    RepliesWhenAnswered(table, agents, lane, ids[..k], outside, id);
  }

  /** A message still waits with no more replies than before, or has one now; and a replied one stays so. */
  ghost predicate RepliedOrWaits(table: Table, after: Table, lane: Party, id: nat) {
    && (Waiting(after, lane, id) ==> Waiting(table, lane, id) && Replies(after, id) == Replies(table, id))
    && (!Waiting(after, lane, id) && Waiting(table, lane, id) ==> Replies(after, id) != {})
    && (Replies(table, id) != {} ==> Replies(after, id) != {})
  }

  lemma RepliesWhenAnswered(table: Table, agents: Registry, lane: Party, ids: seq<nat>, outside: Outside, id: nat)
    requires (lane == Prime || lane == Local) && AllWaiting(table, lane, ids)
    ensures RepliedOrWaits(table, Answered(table, agents, ids, outside), lane, id)
  {
    AnsweredWaiting(table, agents, lane, ids, outside, id);
    if id !in ids {
      NotAnswered(table, agents, ids, outside, id);
    } else {
      var i :| 0 <= i < |ids| && ids[i] == id;
      AnsweredOnce(table, agents, lane, ids, outside, i);
      assert |table| + i in Replies(Answered(table, agents, ids, outside), id);
    }
  }

  // ---------- the runtime ----------

  class LaneRuntime {
    var records: Table
    const registry: DurableAgentRegistry

    constructor (stored: Table, agents: DurableAgentRegistry)
      ensures records == stored && registry == agents
    {
      records, registry := stored, agents;
    }

    method Send(record: Record) returns (id: nat)
      modifies this`records
      ensures id == |old(records)| && records == old(records) + [record]
    {
      id := |records|;
      records := records + [record];
    }

    method UpdateStatus(id: nat, status: Status)
      modifies this`records
      ensures records == WithStatus(old(records), id, status)
    {
      if id < |records| && OnLane(records[id].channel) {
        records := records[id := records[id].(status := status)];
      }
    }

    method EmitReply(id: nat, lane: Party)
      modifies this`records
      ensures records == WithStatus(old(records) + [Reply(lane, id)], id, Resolved)
    {
      var reply := Send(Reply(lane, id));
      UpdateStatus(id, Resolved);
    }

    /** The chain of stand-ins when Prime does not answer. */
    method HandlePrimeUnavailable(m: Record, c: Conditions) returns (answer: Answer)
      modifies registry
      ensures registry.agents == Bootstrapped(old(registry.agents))
      ensures answer == PrimeUnavailable(registry.agents, m, c)
    {
      var fallback := registry.ChooseFallback(Prime, SecurityLevel(m));
      if fallback == Some(Reception) {
        if Reception in registry.agents && Available(registry.agents[Reception]) {
          if c.receptionConfigured && c.receptionCompletes {
            return Answer(Reception, FailoverReply);
          }
        }
        answer := AttemptLocalFailover(c);
      } else if fallback == Some(Local) {
        answer := AttemptLocalFailover(c);
      } else {
        answer := Answer(Fallback, DegradedReply);
      }
    }

    method AttemptLocalFailover(c: Conditions) returns (answer: Answer)
      ensures answer == LocalFailover(c)
    {
      if c.localAnswers {
        answer := Answer(Local, FailoverReply);
      } else {
        answer := Answer(Fallback, DegradedReply);
      }
    }

    /** `ok` is false when the handling ends with an exception. */
    method HandleMessage(id: nat, c: Conditions) returns (ok: bool)
      requires id < |records|
      modifies this`records, registry
      ensures ok == !c.fails
      ensures records == Handled(old(records), old(registry.agents), id, c)
      ensures Bootstrapped(registry.agents) == Bootstrapped(old(registry.agents))
    {
      if c.fails {
        return false;
      }
      ok := true;
      var m := records[id];
      if c.answeredFromState || c.becomesWork {
        EmitReply(id, m.recipient);
      } else if m.recipient == Local {
        EmitReply(id, Local);
      } else if c.routeAccepted && c.providerKnown && c.providerCompletes {
        EmitReply(id, Prime);
      } else {
        var answer := HandlePrimeUnavailable(m, c);
        EmitReply(id, answer.lane);
      }
    }

    method ListPending(lane: Party) returns (ids: seq<nat>)
      ensures ids == Pending(records, lane)
    {
      ids := [];
      for i := 0 to |records|
        invariant ids == Pending(records[..i], lane)
      {
        assert records[..i + 1][..i] == records[..i];
        if IsPending(records[i], lane) {
          ids := ids + [i];
        }
      }
      assert records[..|records|] == records;
    }

    method TakePending(lane: Party, limit: int) returns (ids: seq<nat>)
      ensures ids == Taken(records, lane, limit)
    {
      if lane != Prime && lane != Local {
        return [];
      }
      ids := ListPending(lane);
      var most := if limit < 1 then 1 else limit;
      if |ids| > most {
        ids := ids[..most];
      }
    }

    /** One pass; an exception ends it and leaves the rest waiting. */
    method ProcessPendingTurns(lane: Party, limit: int, outside: Outside)
      modifies this`records, registry
      ensures records == Processed(old(records), old(registry.agents), lane, limit, outside)
    {
      ghost var table, agents := records, registry.agents;
      var pending := TakePending(lane, limit);
      TakenWaiting(table, lane, limit);
      NothingAnswered(table, agents, outside);
      assert pending[..0] == [];
      var done := 0;
      while done < |pending|
        invariant HandledSoFar(table, agents, pending, outside, done, records)
        invariant Bootstrapped(registry.agents) == Bootstrapped(agents)
      {
        HandleNext(table, agents, lane, pending, outside, done, records, registry.agents);
        var ok := HandleMessage(pending[done], outside(pending[done]));
        if !ok {
          return;
        }
        done := done + 1;
      }
      AllHandled(table, agents, pending, outside, records);
    }
  }
}
