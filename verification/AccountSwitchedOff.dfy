/**
 What becomes of the account registry once a link, a device or a client has been switched
 off from outside: no operation of the registry ever switches it on again.
 */
module AccountSwitchedOff {
  import opened Options
  import opened AccountRecords
  import opened AccountOperations
  import AccountCodes
  import AccountFlow
  import AccountInvariant
  import AccountLinks

  /** What is off stays off, and a stored link is at most switched off. */
  ghost predicate OffStays(s: State, t: State) {
    && (forall d | d in s.devices && !s.devices[d].active :: d in t.devices && !t.devices[d].active)
    && (forall c | c in s.clients && !s.clients[c].active :: c in t.clients && !t.clients[c].active)
    && |s.links| <= |t.links|
    && (forall i | 0 <= i < |s.links| :: t.links[i] == s.links[i] || t.links[i] == s.links[i].(active := false))
  }

  /** Switching off makes the one record inactive, changes nothing else of it and touches no other. */
  lemma SwitchedOff(s: State, off: SwitchOff)
    ensures var t := ApplyOff(s, off);
      match off
      case LinkOff(i) =>
        i < |s.links| ==> t == s.(links := t.links) && t.links == s.links[..i] + [s.links[i].(active := false)] + s.links[i + 1..]
      case DeviceOff(d) => d in s.devices ==> t == s.(devices := t.devices) && t.devices == s.devices[d := Device(s.devices[d].userId, false)]
      case ClientOff(c) => c in s.clients ==> t == s.(clients := t.clients) && t.clients == s.clients[c := Client(s.clients[c].redirects, false)]
  {
  }

  lemma OffKeepsOff(s: State, off: SwitchOff)
    ensures OffStays(s, ApplyOff(s, off))
  {
    match off
    case LinkOff(i) =>
    case DeviceOff(d) =>
    case ClientOff(c) =>
  }

  lemma AccountKeepsOff(s: State, op: AccountOp, now: int)
    requires FreshAccount(s, op)
    ensures OffStays(s, ApplyAccount(s, op, now))
  {
    match op
    case PairOp(email, d, k) => AccountFlow.PairWrites(s, email, d, k, now);
    case RegisterDesktopOp(email, asked, u, p, d, k) => AccountFlow.DesktopWrites(s, email, asked, u, p, d, k, now);
    case LinkOp(d, p, k) => AccountInvariant.LinkWrites(s, d, p, k, now);
    case _ =>
  }

  lemma StepKeepsOff(s: State, e: Event)
    requires Fresh(s, e.op)
    ensures OffStays(s, Apply(s, e))
  {
    match e.op
    case Account(op) => AccountKeepsOff(s, op, e.now);
    case OAuth(op) => AccountFlow.OAuthKeepsAccounts(s, op, e.now);
    case Environment(off) => OffKeepsOff(s, off);
  }

  /** In every run. */
  lemma {:induction false} RunKeepsOff(s: State, es: seq<Event>, clock: int)
    requires ValidRun(s, es, clock)
    ensures OffStays(s, RunEnd(s, es))
    decreases |es|
  {
    if es != [] {
      StepKeepsOff(s, es[0]);
      RunKeepsOff(Apply(s, es[0]), es[1..], es[0].now);
    }
  }

  /**
   A device that was switched off is refused in every later state, whatever secret it presents; no token that was
   given out for it resolves any more, no code for it is exchanged and none is issued.
   */
  lemma DeviceOffForEver(s: State, d: Id, es: seq<Event>, clock: int, p: Id, secret: Option<Secret>, k: Secret,
                         exchange: ExchangeRequest, issue: CodeRequest, now: int)
    requires d in s.devices && ValidRun(ApplyOff(s, DeviceOff(d)), es, clock)
    ensures var t := RunEnd(ApplyOff(s, DeviceOff(d)), es);
      && VerifyDeviceLink(t, p, Some(d), secret).Refused?
      && (Sha256(k) in t.tokens && t.tokens[Sha256(k)].grant.deviceId == d ==> ResolveToken(t, k, now).1.Refused?)
      && (exchange.code in t.codes && t.codes[exchange.code].grant.deviceId == d ==> Exchange(t, exchange, k, now).1.Refused?)
      && (issue.deviceId == Some(d) ==> GrantFor(t, issue).Refused?)
  {
    var off := ApplyOff(s, DeviceOff(d));
    var t := RunEnd(off, es);
    SwitchedOff(s, DeviceOff(d));
    RunKeepsOff(off, es, clock);
    forall q, presented ensures VerifyDeviceLink(t, q, Some(d), presented).Refused? {
      AccountLinks.VerifyExactly(t, q, Some(d), presented);
    }
  }

  /** A client that was switched off is issued no code in any later state. */
  lemma ClientOffForEver(s: State, c: Id, es: seq<Event>, clock: int, req: CodeRequest, code: Id, now: int)
    requires c in s.clients && ValidRun(ApplyOff(s, ClientOff(c)), es, clock) && req.clientId == c
    ensures IssueCode(RunEnd(ApplyOff(s, ClientOff(c)), es), req, code, now).1.Refused?
  {
    SwitchedOff(s, ClientOff(c));
    RunKeepsOff(ApplyOff(s, ClientOff(c)), es, clock);
  }

  /** A link that was switched off authorizes nothing in any later state. */
  lemma LinkOffForEver(s: State, i: nat, es: seq<Event>, clock: int, p: Id, device: Option<Id>, secret: Option<Secret>)
    requires i < |s.links| && ValidRun(ApplyOff(s, LinkOff(i)), es, clock)
    ensures var t := RunEnd(ApplyOff(s, LinkOff(i)), es);
      i < |t.links| && !AccountLinks.Authorizes(t, t.links[i], p, device, secret) && t.links[i].tokenHash == s.links[i].tokenHash
  {
    SwitchedOff(s, LinkOff(i));
    RunKeepsOff(ApplyOff(s, LinkOff(i)), es, clock);
  }
}
