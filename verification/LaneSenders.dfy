/**
 Who sends the reply to a message, exactly, and the whole record of that reply: what the
 lane runtime (astrata/comms/runtime.py) does, in terms of the stored agents and of what happens outside.
 */
module LaneSenders {
  import opened Agents
  import opened Lanes
  import opened Options
  import opened Text

  /** The text that the message gives for its security level. */
  function LevelText(m: Record): string {
    if m.securityLevel != "" then m.securityLevel else if m.confidentiality != "" then m.confidentiality else "normal"
  }

  /** It says sensitive, secret or enclave, in any case and with any white space around it. */
  predicate KeptLocal(m: Record) {
    Lower(Strip(LevelText(m))) in {"sensitive", "secret", "enclave"}
  }

  predicate Usable(agents: Registry, id: Party) {
    id in agents && agents[id].status in {Active, Degraded}
  }

  /** Reception stands in for Prime: configured so, usable, and the message is not to be kept local. */
  predicate ReceptionStands(all: Registry, m: Record) {
    Prime in all && all[Prime].standIn == Some(Reception) && Usable(all, Reception) && !KeptLocal(m)
  }

  /** Prime's stand-in is none, or a usable agent other than these two, which the runtime has no way to ask. */
  predicate NobodyStands(all: Registry, m: Record) {
    Prime in all &&
    match all[Prime].standIn
    case None => true
    case Some(id) => id != Reception && id != Local && Usable(all, id) && !KeptLocal(m)
  }

  /** The sender of the reply. */
  predicate SentBy(all: Registry, m: Record, c: Conditions, sender: Party) {
    if c.answeredFromState || c.becomesWork || m.recipient == Local then sender == m.recipient
    else if c.routeAccepted && c.providerKnown && c.providerCompletes then sender == Prime
    else if ReceptionStands(all, m) && c.receptionConfigured && c.receptionCompletes then sender == Reception
    else if c.localAnswers && !NobodyStands(all, m) then sender == Local
    else sender == Fallback
  }

  /** What kind of reply it is. */
  predicate Kind(m: Record, c: Conditions, sender: Party, action: Action) {
    if c.answeredFromState then action == DirectReply
    else if c.becomesWork then action == MaterializeWork
    else if m.recipient == Local then action == if c.localAnswers then DirectReply else DegradedReply
    else action == match sender { case Prime => DirectReply case Fallback => DegradedReply case _ => FailoverReply }
  }

  lemma FailoverSender(agents: Registry, m: Record, c: Conditions)
    ensures var all, answer := Bootstrapped(agents), PrimeUnavailable(Bootstrapped(agents), m, c);
      && answer.lane == (if ReceptionStands(all, m) && c.receptionConfigured && c.receptionCompletes then Reception
                         else if c.localAnswers && !NobodyStands(all, m) then Local else Fallback)
      && answer.action == if answer.lane == Fallback then DegradedReply else FailoverReply
  {
    FailoverExactly(agents, m, c);
  }

  /**
   Exactly who sends the reply and of what kind it is. In particular Prime itself answers a message to it that
   is neither answered from state nor turned into work exactly when route, provider and completion all succeed.
   */
  lemma SenderExactly(agents: Registry, m: Record, c: Conditions)
    ensures forall sender :: AnswerTo(agents, m, c).lane == sender <==> SentBy(Bootstrapped(agents), m, c, sender)
    ensures Kind(m, c, AnswerTo(agents, m, c).lane, AnswerTo(agents, m, c).action)
    ensures m.recipient == Prime && !c.answeredFromState && !c.becomesWork ==>
      (AnswerTo(agents, m, c).lane == Prime <==> c.routeAccepted && c.providerKnown && c.providerCompletes)
  {
    FailoverSender(agents, m, c);
  }

  // ---------- the replies of a pass ----------

  /**
   The whole reply that a pass sends to a message it takes before the first failure: to the principal, on the
   principal's channel, delivered, naming the message, from exactly the right sender; the replies stand in the order of the messages.
   */
  lemma ReplyExactly(table: Table, agents: Registry, lane: Party, limit: int, outside: Outside, k: nat)
    requires var ids := Taken(table, lane, limit); k < Served(ids, outside)
    ensures var ids, after := Taken(table, lane, limit), Processed(table, agents, lane, limit, outside);
      var id := ids[k];
      && id < |table| && |table| + k < |after|
      && after[|table| + k] == Record(after[|table| + k].sender, Principal, PrincipalChannel, Delivered, "", "", Some(id))
      && SentBy(Bootstrapped(agents), table[id], outside(id), after[|table| + k].sender)
      && after[id] == table[id].(status := Resolved)
    ensures |Processed(table, agents, lane, limit, outside)| == |table| + Served(Taken(table, lane, limit), outside)
  {
    var ids := Taken(table, lane, limit);
    TakenWaiting(table, lane, limit);
    assert Waiting(table, lane, ids[k]);
    assert ids[..Served(ids, outside)][k] == ids[k];
    SenderExactly(agents, table[ids[k]], outside(ids[k]));
  }

  /** The messages a pass takes, in terms of their records: the oldest of those from the principal or an operator that wait on the lane. */
  lemma TakenExactly(table: Table, lane: Party, limit: int, id: nat)
    ensures id in Pending(table, lane) <==>
      && id < |table| && table[id].recipient == lane
      && table[id].channel in {PrincipalChannel, OperatorChannel}
      && table[id].sender in {Principal, Operator}
      && table[id].status in {Queued, Delivered}
    ensures |Taken(table, lane, limit)| ==
      if lane != Prime && lane != Local then 0
      else if |Pending(table, lane)| <= (if limit < 1 then 1 else limit) then |Pending(table, lane)|
      else if limit < 1 then 1 else limit
    ensures Taken(table, lane, limit) <= Pending(table, lane)
  {
    PendingExactly(table, lane);
    assert id in Pending(table, lane) <==> Waiting(table, lane, id);
  }

  // ---------- the default agents ----------

  /** With the default agents as they are: Reception answers an open message for Prime, then Local, then the fallback text. */
  lemma DefaultFailover(m: Record, c: Conditions)
    ensures PrimeUnavailable(Bootstrapped(map[]), m, c).lane ==
      if !KeptLocal(m) && c.receptionConfigured && c.receptionCompletes then Reception
      else if c.localAnswers then Local
      else Fallback
  {
    FailoverSender(map[], m, c);
  }

  /** A status update changes one record, and only on the principal's and the operators' channels. */
  lemma StatusExactly(table: Table, id: nat, status: Status, i: nat)
    requires i < |table|
    ensures var after := WithStatus(table, id, status);
      && |after| == |table|
      && after[i] == if i == id && table[i].channel in {PrincipalChannel, OperatorChannel} then table[i].(status := status) else table[i]
  {
  }
}
