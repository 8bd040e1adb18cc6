/**
 Authorization codes: exactly which requests are answered with a code, what the code
 grants, and to which redirects the codes of a run were issued.
 */
module AccountCodes {
  import opened Options
  import opened AccountRecords
  import opened AccountOperations
  import opened AccountInvariant
  import opened AccountLinks
  import AccountFlow
  import AccountGrants
  import AccountScopes
  import Text

  // ---------- who and what a request asks for ----------

  /** The user that an id or an address names: the id wins, and an empty address names nobody. */
  ghost predicate Names(s: State, email: string, userId: Option<Id>, u: Id) {
    && u in s.users
    && if userId.Some? then userId.value == u else email != "" && s.users[u].email == Text.Lower(Text.Strip(email))
  }

  lemma NamedExactly(s: State, email: string, userId: Option<Id>, u: Id)
    requires EmailsUnique(s.users)
    ensures ResolveUser(s, email, userId) == Some(u) <==> Names(s, email, userId, u)
  {
  }

  ghost predicate OwnsProfile(s: State, u: Id, p: Id) {
    p in s.profiles && s.profiles[p].userId == Some(u)
  }

  /** The first profile in table order that the user owns. */
  ghost predicate DefaultOf(s: State, u: Id, p: Id) {
    exists k: nat :: k < |s.profileOrder| && s.profileOrder[k] == p && OwnsProfile(s, u, p)
      && forall j | 0 <= j < k :: !OwnsProfile(s, u, s.profileOrder[j])
  }

  lemma DefaultExactly(s: State, u: Id, p: Id)
    ensures DefaultProfile(s, u) == Some(p) <==> DefaultOf(s, u, p)
  {
    FirstOwnedExactly(s.profileOrder, s.profiles, u, p);
    forall q ensures Owned(s.profiles, q, u) <==> OwnsProfile(s, u, q) {
    }
    if k: nat :| FirstOwnedAt(s.profileOrder, s.profiles, u, k) && s.profileOrder[k] == p {
      assert DefaultOf(s, u, p);
    }
    if k: nat :| k < |s.profileOrder| && s.profileOrder[k] == p && OwnsProfile(s, u, p)
                 && forall j | 0 <= j < k :: !OwnsProfile(s, u, s.profileOrder[j])
    {
      assert FirstOwnedAt(s.profileOrder, s.profiles, u, k);
    }
  }

  // ---------- issuing a code ----------

  ghost predicate ClientActive(s: State, c: Id) {
    c in s.clients && s.clients[c].active
  }

  /** The client registered no redirect, or one with the same text or the same ChatGPT callback. */
  ghost predicate RedirectRegistered(client: Client, redirect: Redirect) {
    client.redirects == []
    || exists r :: r in client.redirects && (r.text == redirect.text || (r.callback.Some? && r.callback == redirect.callback))
  }

  /** RFC 7636, section 4.3: a challenge comes with a method, of which only S256 is supported. */
  ghost predicate MethodSupported(req: CodeRequest) {
    req.challenge.None? || req.challengeMethod == "S256"
  }

  /** The asked profile, which must be the user's own, or without one the user's first. */
  ghost predicate ProfileFor(s: State, req: CodeRequest, u: Id, p: Id) {
    if req.profileId.Some? then req.profileId.value == p && OwnsProfile(s, u, p) else DefaultOf(s, u, p)
  }

  /** The asked device, or without one the profile's default device, if it has one. */
  ghost function DeviceFor(s: State, req: CodeRequest, p: Id): Option<Id>
    requires p in s.profiles
  {
    if req.deviceId == None then s.profiles[p].defaultDevice else req.deviceId
  }

  ghost predicate Linked(s: State, req: CodeRequest, p: Id) {
    p in s.profiles && exists link :: link in s.links && Authorizes(s, link, p, DeviceFor(s, req, p), None)
  }

  ghost predicate MayIssue(s: State, req: CodeRequest, u: Id, p: Id) {
    && ClientActive(s, req.clientId) && RedirectRegistered(s.clients[req.clientId], req.redirect) && MethodSupported(req)
    && Names(s, req.email, req.userId, u) && s.users[u].eligible
    && ProfileFor(s, req, u, p) && Linked(s, req, p)
  }

  lemma RedirectExactly(client: Client, redirect: Redirect)
    ensures RedirectAllowed(client, redirect) <==> RedirectRegistered(client, redirect)
  {
    if r :| r in client.redirects && (r.text == redirect.text || (r.callback.Some? && r.callback == redirect.callback)) {
      var i :| 0 <= i < |client.redirects| && client.redirects[i] == r;
      assert RedirectsMatch(client.redirects[i], redirect);
    }
  }

  lemma ProfileForExactly(s: State, req: CodeRequest, u: Id, p: Id)
    ensures ProfileFor(s, req, u, p)
      <==> (if req.profileId.Some? then req.profileId else DefaultProfile(s, u)) == Some(p) && Owned(s.profiles, p, u)
  {
    DefaultExactly(s, u, p);
  }

  /** What is granted for this user and profile. */
  ghost predicate Grants(s: State, req: CodeRequest, g: Grant, u: Id, p: Id) {
    && g.clientId == req.clientId && g.userId == u && g.profileId == p && p in s.profiles
    && g.scope == AccountScopes.NormalizeScope(req.scope)
    && (DeviceFor(s, req, p).Some? ==> g.deviceId == DeviceFor(s, req, p).value)
    && exists i: nat :: LatestAt(s, i, p, DeviceFor(s, req, p), None) && s.links[i].deviceId == g.deviceId
  }

  lemma LinkedExactly(s: State, req: CodeRequest, p: Id)
    requires p in s.profiles
    ensures Linked(s, req, p) <==> VerifyDeviceLink(s, p, DeviceFor(s, req, p), None).Ok?
  {
    VerifyExactly(s, p, DeviceFor(s, req, p), None);
  }

  /** The client, its redirect and the challenge method are in order. */
  ghost predicate ClientInOrder(s: State, req: CodeRequest) {
    ClientActive(s, req.clientId) && RedirectRegistered(s.clients[req.clientId], req.redirect) && MethodSupported(req)
  }

  /** The last two checks, for the user that the request names. */
  lemma GrantForUser(s: State, req: CodeRequest, u: Id)
    requires ResolveUser(s, req.email, req.userId) == Some(u) && s.users[u].eligible && ClientInOrder(s, req)
    ensures var r := GrantFor(s, req);
      && (r.Ok? <==> exists p :: ProfileFor(s, req, u, p) && Linked(s, req, p))
      && (r.Ok? ==> ProfileFor(s, req, u, r.value.profileId) && Linked(s, req, r.value.profileId)
                    && Grants(s, req, r.value, u, r.value.profileId))
      && (r == Refused(ProfileNotOwned) <==> forall p :: !ProfileFor(s, req, u, p))
      && (r == Refused(NoActiveOwnedDeviceLink) <==> exists p :: ProfileFor(s, req, u, p) && !Linked(s, req, p))
  {
    RedirectExactly(s.clients[req.clientId], req.redirect);
    var profile := if req.profileId.Some? then req.profileId else DefaultProfile(s, u);
    forall p: Id ensures ProfileFor(s, req, u, p) <==> profile == Some(p) && Owned(s.profiles, p, u) {
      ProfileForExactly(s, req, u, p);
    }
    if profile.Some? && Owned(s.profiles, profile.value, u) {
      LinkedExactly(s, req, profile.value);
      VerifyExactly(s, profile.value, DeviceFor(s, req, profile.value), None);
    }
  }

  /** A grant is made exactly for an acceptable request, and names its user, profile and device. */
  lemma GrantExactly(s: State, req: CodeRequest)
    requires EmailsUnique(s.users)
    ensures GrantFor(s, req).Ok? <==> exists u, p :: MayIssue(s, req, u, p)
    ensures GrantFor(s, req).Ok? ==> exists u, p :: MayIssue(s, req, u, p) && Grants(s, req, GrantFor(s, req).value, u, p)
  {
    ChecksInOrder(s, req);
    var user, r := ResolveUser(s, req.email, req.userId), GrantFor(s, req);
    if ClientInOrder(s, req) && user.Some? && s.users[user.value].eligible {
      GrantForUser(s, req, user.value);
      assert r.Ok? ==> MayIssue(s, req, user.value, r.value.profileId);
    }
  }

  /** The checks before the last two, in terms of the user found. */
  lemma ChecksInOrder(s: State, req: CodeRequest)
    requires EmailsUnique(s.users)
    ensures forall u: Id :: ResolveUser(s, req.email, req.userId) == Some(u) <==> Names(s, req.email, req.userId, u)
    ensures var r := GrantFor(s, req);
      && (r == Refused(UnknownClient) <==> !ClientActive(s, req.clientId))
      && (r == Refused(RedirectNotAllowed) <==>
            ClientActive(s, req.clientId) && !RedirectRegistered(s.clients[req.clientId], req.redirect))
      && (r == Refused(UnsupportedChallengeMethod) <==>
            ClientActive(s, req.clientId) && RedirectRegistered(s.clients[req.clientId], req.redirect) && !MethodSupported(req))
      && (r == Refused(UnknownUser) <==> ClientInOrder(s, req) && ResolveUser(s, req.email, req.userId).None?)
      && (r == Refused(HostedBridgeNotEnabled) <==>
            ClientInOrder(s, req) && ResolveUser(s, req.email, req.userId).Some?
            && !s.users[ResolveUser(s, req.email, req.userId).value].eligible)
      && (r.Ok? || r == Refused(ProfileNotOwned) || r == Refused(NoActiveOwnedDeviceLink) <==>
            ClientInOrder(s, req) && ResolveUser(s, req.email, req.userId).Some?
            && s.users[ResolveUser(s, req.email, req.userId).value].eligible)
  {
    if ClientActive(s, req.clientId) {
      RedirectExactly(s.clients[req.clientId], req.redirect);
    }
    forall u: Id ensures ResolveUser(s, req.email, req.userId) == Some(u) <==> Names(s, req.email, req.userId, u) {
      NamedExactly(s, req.email, req.userId, u);
    }
  }

  /** Which of its checks a refused request fails first. */
  lemma RefusalExactly(s: State, req: CodeRequest)
    requires EmailsUnique(s.users)
    ensures var r := GrantFor(s, req);
      && (r == Refused(UnknownClient) <==> !ClientActive(s, req.clientId))
      && (r == Refused(RedirectNotAllowed) <==>
            ClientActive(s, req.clientId) && !RedirectRegistered(s.clients[req.clientId], req.redirect))
      && (r == Refused(UnsupportedChallengeMethod) <==>
            ClientActive(s, req.clientId) && RedirectRegistered(s.clients[req.clientId], req.redirect) && !MethodSupported(req))
      && (r == Refused(UnknownUser) <==> ClientInOrder(s, req) && forall u :: !Names(s, req.email, req.userId, u))
      && (r == Refused(HostedBridgeNotEnabled) <==>
            ClientInOrder(s, req) && exists u :: Names(s, req.email, req.userId, u) && !s.users[u].eligible)
      && (r == Refused(ProfileNotOwned) <==>
            ClientInOrder(s, req) && exists u :: Names(s, req.email, req.userId, u) && s.users[u].eligible
                                              && forall p :: !ProfileFor(s, req, u, p))
      && (r == Refused(NoActiveOwnedDeviceLink) <==>
            ClientInOrder(s, req) && exists u, p :: Names(s, req.email, req.userId, u) && s.users[u].eligible
                                                 && ProfileFor(s, req, u, p) && !Linked(s, req, p))
  {
    ChecksInOrder(s, req);
    var user := ResolveUser(s, req.email, req.userId);
    if ClientInOrder(s, req) && user.Some? && s.users[user.value].eligible {
      GrantForUser(s, req, user.value);
    }
  }

  /** A code is issued exactly when its grant is made: the new code is all that changes, and a refusal changes nothing. */
  lemma IssueExactly(s: State, req: CodeRequest, c: Id, now: int)
    requires EmailsUnique(s.users)
    ensures var (t, r) := IssueCode(s, req, c, now);
      && (r.Ok? <==> exists u, p :: MayIssue(s, req, u, p))
      && (r.Ok? ==>
            && (exists u, p :: MayIssue(s, req, u, p) && Grants(s, req, r.value.grant, u, p))
            && r.value.redirect == req.redirect && r.value.challenge == req.challenge && r.value.status == CodeOpen
            && r.value.expiresAt == now + (if req.ttl == 0 then 600 else if req.ttl < 60 then 60 else req.ttl)
            && t == s.(codes := s.codes[c := r.value]))
      && (r.Refused? ==> t == s && GrantFor(s, req) == Refused(r.status))
  {
    GrantExactly(s, req);
  }

  // ---------- every code of a run went to a registered redirect ----------

  ghost predicate RedirectsSound(s: State) {
    forall c | c in s.codes ::
      s.codes[c].grant.clientId in s.clients && RedirectRegistered(s.clients[s.codes[c].grant.clientId], s.codes[c].redirect)
  }

  /** A client never gets another list of redirects. */
  ghost predicate ClientsKept(s: State, t: State) {
    forall c | c in s.clients :: c in t.clients && t.clients[c].redirects == s.clients[c].redirects
  }

  lemma StepKeepsClients(s: State, e: Event)
    requires Fresh(s, e.op)
    ensures ClientsKept(s, Apply(s, e))
  {
    match e.op
    case OAuth(op) => AccountFlow.OAuthKeepsAccounts(s, op, e.now);
    case Environment(off) => OffKeepsClients(s, off);
    case Account(op) => AccountKeepsClients(s, op, e.now);
  }

  lemma OffKeepsClients(s: State, off: SwitchOff)
    ensures ClientsKept(s, ApplyOff(s, off))
  {
  }

  lemma AccountKeepsClients(s: State, op: AccountOp, now: int)
    requires FreshAccount(s, op)
    ensures ClientsKept(s, ApplyAccount(s, op, now))
  {
    match op
    case PairOp(email, d, k) => AccountFlow.PairWrites(s, email, d, k, now);
    case RegisterDesktopOp(email, asked, u, p, d, k) => AccountFlow.DesktopWrites(s, email, asked, u, p, d, k, now);
    case LinkOp(d, p, k) => LinkWrites(s, d, p, k, now);
    case _ =>
  }

  lemma RegisteredStays(s: State, t: State, c: Id, redirect: Redirect)
    requires ClientsKept(s, t) && c in s.clients && RedirectRegistered(s.clients[c], redirect)
    ensures c in t.clients && RedirectRegistered(t.clients[c], redirect)
  {
  }

  lemma IssueKeepsRedirects(s: State, req: CodeRequest, c: Id, now: int)
    requires RedirectsSound(s) && EmailsUnique(s.users)
    ensures RedirectsSound(IssueCode(s, req, c, now).0)
  {
    IssueExactly(s, req, c, now);
  }

  lemma StepKeepsRedirects(s: State, e: Event)
    requires Inv(s) && RedirectsSound(s) && Fresh(s, e.op)
    ensures RedirectsSound(Apply(s, e))
  {
    var t := Apply(s, e);
    if e.op.OAuth? && e.op.oauth.IssueCodeOp? {
      IssueKeepsRedirects(s, e.op.oauth.codeRequest, e.op.oauth.newCode, e.now);
    } else {
      StepKeepsClients(s, e);
      OnlyIssuingAddsCodes(s, e);
      forall c | c in t.codes
        ensures t.codes[c].grant.clientId in t.clients && RedirectRegistered(t.clients[t.codes[c].grant.clientId], t.codes[c].redirect)
      {
        RegisteredStays(s, t, s.codes[c].grant.clientId, s.codes[c].redirect);
      }
    }
  }

  /** The same codes, up to their status. */
  ghost predicate SameCodes(s: State, t: State) {
    forall c | c in t.codes :: c in s.codes && t.codes[c] == s.codes[c].(status := t.codes[c].status)
  }

  lemma OnlyIssuingAddsCodes(s: State, e: Event)
    requires !(e.op.OAuth? && e.op.oauth.IssueCodeOp?)
    ensures SameCodes(s, Apply(s, e))
  {
    if e.op.OAuth? {
      OtherGrantStepsAddNoCodes(s, e.op.oauth, e.now);
    } else {
      AccountGrants.OtherStepsLeaveGrants(s, e);
    }
  }

  lemma OtherGrantStepsAddNoCodes(s: State, op: OAuthOp, now: int)
    requires !op.IssueCodeOp?
    ensures SameCodes(s, ApplyOAuth(s, op, now))
  {
    match op
    case ExchangeOp(req, k) => ExchangeAddsNoCodes(s, req, k, now);
    case ResolveOp(k) =>
      ResolveWrites(s, k, now);
      assert ApplyOAuth(s, op, now).codes == s.codes;
    case RevokeOp(k) =>
      assert ApplyOAuth(s, op, now).codes == s.codes;
  }

  lemma ExchangeAddsNoCodes(s: State, req: ExchangeRequest, k: Secret, now: int)
    ensures SameCodes(s, Exchange(s, req, k, now).0)
  {
    ExchangeWrites(s, req, k, now);
  }

  /** In every reachable state each code was issued to a redirect that its client has registered. */
  lemma {:induction false} RunKeepsRedirects(s: State, es: seq<Event>, clock: int)
    requires Inv(s) && RedirectsSound(s) && ValidRun(s, es, clock)
    ensures RedirectsSound(RunEnd(s, es))
    decreases |es|
  {
    if es != [] {
      StepKeeps(s, es[0]);
      StepKeepsRedirects(s, es[0]);
      RunKeepsRedirects(Apply(s, es[0]), es[1..], es[0].now);
    }
  }

  // ---------- what becomes of codes and tokens ----------

  /** The lifetime of a new token, and which check a refused exchange fails first. */
  lemma ExchangeAnswers(s: State, req: ExchangeRequest, k: Secret, now: int)
    ensures var r := Exchange(s, req, k, now).1;
      && (r.Ok? ==> r.value.expiresAt == now + (if req.ttl == 0 then 3600 else if req.ttl < 300 then 300 else req.ttl))
      && (r == Refused(ExpiredGrant) <==> PresentedOpen(s, req) && s.codes[req.code].expiresAt <= now)
      && (r == Refused(MissingVerifier) <==>
            PresentedOpen(s, req) && now < s.codes[req.code].expiresAt
            && s.codes[req.code].challenge.Some? && Text.Strip(req.verifier) == "")
      && (r == Refused(NoActiveOwnedDeviceLink) <==>
            PresentedOpen(s, req) && now < s.codes[req.code].expiresAt
            && AccountGrants.VerifierMatches(s.codes[req.code].challenge, req.verifier)
            && forall link | link in s.links ::
                 !Authorizes(s, link, s.codes[req.code].grant.profileId, Some(s.codes[req.code].grant.deviceId), None))
      && (r.Ok? || r.status in {InvalidGrant, ExpiredGrant, MissingVerifier, NoActiveOwnedDeviceLink})
  {
    if req.code in s.codes {
      VerifyExactly(s, s.codes[req.code].grant.profileId, Some(s.codes[req.code].grant.deviceId), None);
    }
  }

  /** The code is stored open for this client, and the redirect is the one it was issued to. */
  ghost predicate PresentedOpen(s: State, req: ExchangeRequest) {
    && req.code in s.codes && s.codes[req.code].status == CodeOpen && s.codes[req.code].grant.clientId == req.clientId
    && (var (issued, given) := (s.codes[req.code].redirect, req.redirect);
        issued.text == "" || issued.text == given.text || (issued.callback.Some? && issued.callback == given.callback))
  }

  /** What each resolution of a stored or unknown token answers. */
  lemma ResolveAnswers(s: State, k: Secret, now: int)
    ensures var r := ResolveToken(s, k, now).1;
      if Sha256(k) !in s.tokens then r == Refused(InvalidToken)
      else
        var token := s.tokens[Sha256(k)];
        && (token.status != TokenActive ==> r == Refused(DeadToken(token.status)))
        && (token.status == TokenActive && token.expiresAt <= now ==> r == Refused(ExpiredToken))
        && (token.status == TokenActive && now < token.expiresAt ==>
              (r == Ok(token.grant) <==>
                 exists link :: link in s.links && Authorizes(s, link, token.grant.profileId, Some(token.grant.deviceId), None))
              && (r.Refused? ==> r.status == NoActiveOwnedDeviceLink))
  {
    if Sha256(k) in s.tokens {
      VerifyExactly(s, s.tokens[Sha256(k)].grant.profileId, Some(s.tokens[Sha256(k)].grant.deviceId), None);
    }
  }

  /** Every stored token can be revoked, whatever its status; from then on it is refused as dead, in every later state. */
  lemma RevokedForEver(s: State, k: Secret, es: seq<Event>, clock: int, later: int)
    requires Sha256(k) in s.tokens && ValidRun(RevokeToken(s, k).0, es, clock)
    ensures RevokeToken(s, k).1.Ok? && RevokeToken(s, k).0.tokens[Sha256(k)].status == TokenRevoked
    ensures ResolveToken(RunEnd(RevokeToken(s, k).0, es), k, later).1.Refused?
  {
    AccountGrants.DeadTokenStaysDead(RevokeToken(s, k).0, k, es, clock, later);
  }
}
