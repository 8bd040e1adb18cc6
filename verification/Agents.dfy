/**
 Durable agents and the choice of a stand-in for one that is unavailable
 (astrata/agents/service.py).
 */
module Agents {
  import opened Options
  import opened Text

  /** Who may send, receive or stand in. */
  datatype Party = Principal | Operator | Prime | Reception | Local | Fallback | Other(name: nat)

  datatype AgentStatus = Active | Degraded | Offline | Retired

  datatype Agent = Agent(status: AgentStatus, name: string, standIn: Option<Party>)

  type Registry = map<Party, Agent>

  predicate Available(agent: Agent) {
    agent.status == Active || agent.status == Degraded
  }

  const BOOTSTRAP: Registry := map[
    Prime := Agent(Active, "", Some(Reception)),
    Reception := Agent(Active, "Reception", Some(Local)),
    Local := Agent(Active, "Local", Some(Fallback)),
    Fallback := Agent(Active, "Fallback", None)
  ]

  const DEFAULTS := [Prime, Reception, Local, Fallback]

  /** An existing default agent only has a blank name filled in. */
  function Named(id: Party, agent: Agent): Agent {
    if id in BOOTSTRAP && Strip(agent.name) == "" && Strip(BOOTSTRAP[id].name) != "" then agent.(name := BOOTSTRAP[id].name) else agent
  }

  /** The default agents are added where they are missing. */
  function Bootstrapped(agents: Registry): Registry {
    map id | id in BOOTSTRAP.Keys + agents.Keys :: if id in agents then Named(id, agents[id]) else BOOTSTRAP[id]
  }

  predicate Confidential(level: string) {
    level == "sensitive" || level == "secret" || level == "enclave"
  }

  /** The chosen agent, given that the default agents are there. */
  function Choice(agents: Registry, unavailable: Party, level: string): Option<Party> {
    if unavailable !in agents then Some(Fallback)
    else if agents[unavailable].standIn == None then None
    else
      var id := agents[unavailable].standIn.value;
      if id !in agents || !Available(agents[id]) then (if unavailable == Prime then Some(Local) else Some(Fallback))
      else if Confidential(level) && id != Local then Some(Local)
      else Some(id)
  }

  /** Another agent than Local stands in for Prime only as configured, available, and for an open message. */
  lemma OtherStandInExactly(agents: Registry, level: string, id: Party)
    requires id != Local && Prime in agents
    ensures Choice(agents, Prime, level) == Some(id)
      <==> !Confidential(level) && agents[Prime].standIn == Some(id) && id in agents && Available(agents[id])
  {
  }

  /** The stored agents and the four defaults; a stored default keeps status and stand-in and only a blank name is filled in. */
  lemma BootstrappedExactly(agents: Registry, id: Party)
    ensures var all := Bootstrapped(agents);
      && (id in all <==> id in agents || id in {Prime, Reception, Local, Fallback})
      && (id in agents ==> all[id].status == agents[id].status && all[id].standIn == agents[id].standIn)
      && (id in agents && all[id].name != agents[id].name ==> Strip(agents[id].name) == "" && Strip(all[id].name) != "")
      && (id in agents && Strip(agents[id].name) == "" && id in {Reception, Local, Fallback} ==>
            all[id].name == match id { case Reception => "Reception" case Local => "Local" case _ => "Fallback" })
      && (id !in agents && id in all ==>
            && all[id].status == Active
            && all[id].standIn == match id { case Prime => Some(Reception) case Reception => Some(Local)
                                             case Local => Some(Fallback) case _ => None })
  {
    assert Strip("Reception") == "Reception" && Strip("Local") == "Local" && Strip("Fallback") == "Fallback";
  }

  predicate CanStand(agents: Registry, id: Party) {
    id in agents && (agents[id].status == Active || agents[id].status == Degraded)
  }

  /** The stand-in for any agent: its own if that one can, unless the message must stay local; Local for Prime and the fallback text for others if not. */
  lemma ChoiceExactly(agents: Registry, unavailable: Party, level: string)
    ensures unavailable !in agents ==> Choice(agents, unavailable, level) == Some(Fallback)
    ensures unavailable in agents ==>
      match agents[unavailable].standIn
      case None => Choice(agents, unavailable, level) == None
      case Some(id) =>
        if CanStand(agents, id) then
          Choice(agents, unavailable, level) == Some(if level in {"sensitive", "secret", "enclave"} then Local else id)
        else Choice(agents, unavailable, level) == Some(if unavailable == Prime then Local else Fallback)
  {
  }

  /** What looking at one default leaves stored. */
  function WithDefault(agents: Registry, id: Party): Registry
    requires id in BOOTSTRAP
  {
    agents[id := if id in agents then Named(id, agents[id]) else BOOTSTRAP[id]]
  }

  /** The first defaults have been looked at. */
  ghost predicate FirstAdded(before: Registry, after: Registry, n: nat)
    requires n <= |DEFAULTS|
  {
    && (forall p :: p in after <==> p in before || p in DEFAULTS[..n])
    && (forall p | p in after ::
          after[p] == if p !in DEFAULTS[..n] then before[p] else if p in before then Named(p, before[p]) else BOOTSTRAP[p])
  }

  lemma AddedOneMore(before: Registry, after: Registry, n: nat)
    requires n < |DEFAULTS| && FirstAdded(before, after, n)
    ensures DEFAULTS[n] in BOOTSTRAP
    ensures FirstAdded(before, WithDefault(after, DEFAULTS[n]), n + 1)
  {
    assert DEFAULTS[..n + 1] == DEFAULTS[..n] + [DEFAULTS[n]];
    assert DEFAULTS[n] !in DEFAULTS[..n];
  }

  lemma AllAdded(before: Registry, after: Registry)
    requires FirstAdded(before, after, |DEFAULTS|)
    ensures after == Bootstrapped(before)
  {
    assert DEFAULTS[..|DEFAULTS|] == DEFAULTS;
    assert forall p :: p in DEFAULTS <==> p in BOOTSTRAP;
  }

  class DurableAgentRegistry {
    var agents: Registry

    constructor ()
      ensures agents == map[]
    {
      agents := map[];
    }

    method EnsureBootstrapAgents()
      modifies this
      ensures agents == Bootstrapped(old(agents))
    {
      for i := 0 to |DEFAULTS|
        invariant FirstAdded(old(agents), agents, i)
      {
        ghost var before := agents;
        AddedOneMore(old(agents), before, i);
        var id := DEFAULTS[i];
        if id !in agents {
          agents := agents[id := BOOTSTRAP[id]];
        } else if Strip(agents[id].name) == "" && Strip(BOOTSTRAP[id].name) != "" {
          agents := agents[id := agents[id].(name := BOOTSTRAP[id].name)];
        }
        assert agents == WithDefault(before, id);
      }
      AllAdded(old(agents), agents);
    }

    method Upsert(id: Party, agent: Agent)
      modifies this
      ensures agents == old(agents)[id := agent]
    {
      agents := agents[id := agent];
    }

    method ChooseFallback(unavailable: Party, level: string) returns (chosen: Option<Party>)
      modifies this
      ensures agents == Bootstrapped(old(agents))
      ensures chosen == Choice(agents, unavailable, level)
    {
      EnsureBootstrapAgents();
      if unavailable !in agents {
        return Some(Fallback);
      }
      var current := agents[unavailable];
      if current.standIn == None {
        return None;
      }
      var id := current.standIn.value;
      if id !in agents || !Available(agents[id]) {
        if unavailable == Prime {
          return if Local in agents then Some(Local) else Some(Fallback);
        }
        return Some(Fallback);
      }
      if Confidential(level) && id != Local {
        return Some(Local);
      }
      chosen := Some(id);
    }
  }
}
