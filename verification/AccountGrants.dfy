/**
 Authorization codes and access tokens over whole runs: single use, conservation
 between redeemed codes and tokens, and tokens that stay dead (RFC 6749, sections
 4.1.2 and 4.1.3; RFC 7636, section 4.6).
 */
module AccountGrants {
  import opened Options
  import opened AccountRecords
  import opened AccountOperations
  import opened AccountInvariant
  import Text

  // ---------- one exchange, one resolution ----------

  /** RFC 7636, section 4.6: the digest of the presented verifier equals the stored challenge. */
  predicate VerifierMatches(challenge: Option<Challenge>, verifier: string) {
    challenge.Some? ==> Text.Strip(verifier) != "" && challenge.value == S256(Text.Strip(verifier))
  }

  /** RFC 6749, section 4.1.3, with the device link that this control plane adds. */
  ghost predicate MayExchange(s: State, req: ExchangeRequest, now: int) {
    && req.code in s.codes
    && var record := s.codes[req.code];
    && record.status == CodeOpen
    && now < record.expiresAt
    && record.grant.clientId == req.clientId
    && (record.redirect.text == "" || RedirectsMatch(record.redirect, req.redirect))
    && VerifierMatches(record.challenge, req.verifier)
    && LiveLink(s, record.grant.profileId, record.grant.deviceId)
  }

  /** The link check asks exactly for a live link. */
  lemma VerifyMeansLive(s: State, p: Id, d: Id)
    ensures VerifyDeviceLink(s, p, Some(d), None).Ok? <==> LiveLink(s, p, d)
    ensures VerifyDeviceLink(s, p, Some(d), None).Ok? ==> VerifyDeviceLink(s, p, Some(d), None).value == d
  {
    if p in s.profiles {
      var best := BestLink(s, p, Some(d), None, |s.links|);
      BestLinkIsBest(s, p, Some(d), None, |s.links|);
      if best.Some? {
        assert Usable(s, best.value, p, Some(d), None);
      }
    }
  }

  /** An exchange succeeds exactly when it may; refused, it at most marks its code expired. */
  lemma ExchangeExactly(s: State, req: ExchangeRequest, k: Secret, now: int)
    ensures var (t, r) := Exchange(s, req, k, now);
      && (r.Ok? <==> MayExchange(s, req, now))
      && (r.Ok? ==> r.value.grant == s.codes[req.code].grant && r.value.status == TokenActive
                    && now + 300 <= r.value.expiresAt
                    && t == s.(codes := s.codes[req.code := s.codes[req.code].(status := CodeRedeemed)],
                               tokens := s.tokens[Sha256(k) := r.value]))
      && (r.Refused? && r.status != ExpiredGrant ==> t == s)
      && (r.Refused? && r.status == ExpiredGrant ==>
            && req.code in s.codes && s.codes[req.code].status == CodeOpen && s.codes[req.code].expiresAt <= now
            && t == s.(codes := s.codes[req.code := s.codes[req.code].(status := CodeExpired)]))
  {
    if req.code in s.codes {
      VerifyMeansLive(s, s.codes[req.code].grant.profileId, s.codes[req.code].grant.deviceId);
    }
  }

  ghost predicate MayResolve(s: State, h: Hash, now: int) {
    && h in s.tokens
    && s.tokens[h].status == TokenActive
    && now < s.tokens[h].expiresAt
    && LiveLink(s, s.tokens[h].grant.profileId, s.tokens[h].grant.deviceId)
  }

  /** A token is authorised exactly when it is active, unexpired and its link is live. */
  lemma ResolveExactly(s: State, k: Secret, now: int)
    ensures var (t, r) := ResolveToken(s, k, now);
      && (r.Ok? <==> MayResolve(s, Sha256(k), now))
      && (r.Ok? ==> t == s && r.value == s.tokens[Sha256(k)].grant)
      && (t != s ==> r == Refused(ExpiredToken) && t.tokens[Sha256(k)].status == TokenExpired)
  {
    var h := Sha256(k);
    if h in s.tokens {
      VerifyMeansLive(s, s.tokens[h].grant.profileId, s.tokens[h].grant.deviceId);
    }
  }

  /** In a reachable state an authorised token speaks for an eligible user who owns profile and device. */
  lemma AuthorizedMeansOwned(s: State, k: Secret, now: int)
    requires Inv(s) && ResolveToken(s, k, now).1.Ok?
    ensures var g := ResolveToken(s, k, now).1.value;
      && Eligible(s.users, g.userId)
      && Together(s.profiles, s.devices, g.profileId, g.deviceId, g.userId)
      && s.devices[g.deviceId].active
      && exists i: nat :: i < |s.links| && s.links[i].active && s.links[i].userId == g.userId
                          && s.links[i].profileId == g.profileId && s.links[i].deviceId == g.deviceId
  {
    ResolveExactly(s, k, now);
    var g := s.tokens[Sha256(k)].grant;
    assert GrantSound(s, g);
    var i: nat :| Usable(s, i, g.profileId, Some(g.deviceId), None);
    assert s.links[i] in s.links;
  }

  // ---------- lifecycles over runs ----------

  /** No code is dropped or rewritten, and its status only ever leaves `open`. */
  ghost predicate CodesAge(s: State, t: State) {
    forall c | c in s.codes ::
      && c in t.codes
      && t.codes[c] == s.codes[c].(status := t.codes[c].status)
      && (s.codes[c].status != CodeOpen ==> t.codes[c] == s.codes[c])
  }

  /** No token is dropped or rewritten, and a token that is not active stays so. */
  ghost predicate TokensAge(s: State, t: State) {
    forall h | h in s.tokens ::
      && h in t.tokens
      && t.tokens[h] == s.tokens[h].(status := t.tokens[h].status)
      && (s.tokens[h].status != TokenActive ==> t.tokens[h].status != TokenActive)
  }

  ghost predicate SameGrants(s: State, t: State) {
    t.codes == s.codes && t.tokens == s.tokens
  }

  lemma PairLeavesGrants(s: State, email: string, d: Id, token: Secret, now: int)
    ensures SameGrants(s, PairDevice(s, email, d, token, now).0)
  {
    var user := UserByEmail(s.users, NormalizeEmail(email));
    if user.Some? && DefaultProfile(s, user.value).Some? {
      var (s1, registered) := RegisterDevice(s, "", user, d);
      LinkWrites(s1, d, DefaultProfile(s, user.value).value, token, now);
    }
  }

  lemma DesktopLeavesGrants(s: State, email: string, asked: Option<Id>, newUser: Id, newProfile: Id,
                            d: Id, token: Secret, now: int)
    ensures SameGrants(s, RegisterDesktop(s, email, asked, newUser, newProfile, d, token, now).0)
  {
    var known := UserByEmail(s.users, NormalizeEmail(email));
    var p := DesktopProfile(s, if known.Some? then known.value else newUser, asked, newProfile).0;
    LinkWrites(BeforeDesktopLink(s, email, asked, newUser, newProfile, d), d, p, token, now);
  }

  lemma RedeemLeavesGrants(s: State, email: string, i: Id, u: Id, p: Id)
    ensures SameGrants(s, RedeemInvite(s, email, i, u, p).0)
  {
  }

  lemma RegisterDeviceLeavesGrants(s: State, email: string, user: Option<Id>, d: Id)
    ensures SameGrants(s, RegisterDevice(s, email, user, d).0)
  {
  }

  lemma AccountLeavesGrants(s: State, op: AccountOp, now: int)
    ensures SameGrants(s, ApplyAccount(s, op, now))
  {
    match op
    case RedeemOp(email, i, u, p) => RedeemLeavesGrants(s, email, i, u, p);
    case RegisterDeviceOp(email, user, d) => RegisterDeviceLeavesGrants(s, email, user, d);
    case PairOp(email, d, k) => PairLeavesGrants(s, email, d, k, now);
    case RegisterDesktopOp(email, asked, u, p, d, k) => DesktopLeavesGrants(s, email, asked, u, p, d, k, now);
    case LinkOp(d, p, k) => LinkWrites(s, d, p, k, now);
    case IssueInviteOp(_) =>
    case RegisterClientOp(_, _) =>
  }

  lemma OtherStepsLeaveGrants(s: State, e: Event)
    requires !e.op.OAuth?
    ensures SameGrants(s, Apply(s, e))
  {
    match e.op
    case Account(a) => AccountLeavesGrants(s, a, e.now);
    case Environment(off) => SwitchOffLeavesGrants(s, off);
  }

  lemma SwitchOffLeavesGrants(s: State, off: SwitchOff)
    ensures SameGrants(s, ApplyOff(s, off))
  {
  }

  lemma ResolveAges(s: State, k: Secret, now: int)
    ensures CodesAge(s, ResolveToken(s, k, now).0) && TokensAge(s, ResolveToken(s, k, now).0)
  {
    ResolveWrites(s, k, now);
  }

  lemma RevokeAges(s: State, k: Secret)
    ensures CodesAge(s, RevokeToken(s, k).0) && TokensAge(s, RevokeToken(s, k).0)
  {
  }

  lemma IssueAges(s: State, req: CodeRequest, c: Id, now: int)
    requires c !in s.codes
    ensures CodesAge(s, IssueCode(s, req, c, now).0) && TokensAge(s, IssueCode(s, req, c, now).0)
  {
    IssueCodeWrites(s, req, c, now);
  }

  lemma ExchangeAges(s: State, req: ExchangeRequest, k: Secret, now: int)
    requires Sha256(k) !in s.tokens
    ensures CodesAge(s, Exchange(s, req, k, now).0) && TokensAge(s, Exchange(s, req, k, now).0)
  {
    ExchangeWrites(s, req, k, now);
  }

  lemma OAuthAges(s: State, op: OAuthOp, now: int)
    requires FreshOAuth(s, op)
    ensures CodesAge(s, ApplyOAuth(s, op, now)) && TokensAge(s, ApplyOAuth(s, op, now))
  {
    match op
    case IssueCodeOp(req, c) => IssueAges(s, req, c, now);
    case ExchangeOp(req, k) => ExchangeAges(s, req, k, now);
    case ResolveOp(k) => ResolveAges(s, k, now);
    case RevokeOp(k) => RevokeAges(s, k);
  }

  lemma StepAges(s: State, e: Event)
    requires Fresh(s, e.op)
    ensures CodesAge(s, Apply(s, e)) && TokensAge(s, Apply(s, e))
  {
    if e.op.OAuth? {
      OAuthAges(s, e.op.oauth, e.now);
    } else {
      OtherStepsLeaveGrants(s, e);
    }
  }

  lemma {:induction false} RunAges(s: State, es: seq<Event>, clock: int)
    requires ValidRun(s, es, clock)
    ensures CodesAge(s, RunEnd(s, es)) && TokensAge(s, RunEnd(s, es))
    decreases |es|
  {
    if es != [] {
      StepAges(s, es[0]);
      RunAges(Apply(s, es[0]), es[1..], es[0].now);
    }
  }

  /** This step is an exchange of this code, and it succeeds. */
  ghost predicate Redeems(s: State, e: Event, c: Id) {
    && e.op.OAuth? && e.op.oauth.ExchangeOp?
    && e.op.oauth.exchangeRequest.code == c
    && Exchange(s, e.op.oauth.exchangeRequest, e.op.oauth.newSecret, e.now).1.Ok?
  }

  /** How many exchanges of this code succeed along a run. */
  ghost function Redemptions(s: State, es: seq<Event>, c: Id): nat
    decreases |es|
  {
    if es == [] then 0
    else (if Redeems(s, es[0], c) then 1 else 0) + Redemptions(Apply(s, es[0]), es[1..], c)
  }

  /** Single use: along any run at most one exchange of a code succeeds, and none once it is spent. */
  lemma {:induction false} CodeIsSingleUse(s: State, es: seq<Event>, clock: int, c: Id)
    requires ValidRun(s, es, clock)
    ensures Redemptions(s, es, c) <= 1
    ensures c in s.codes && s.codes[c].status != CodeOpen ==> Redemptions(s, es, c) == 0
    decreases |es|
  {
    if es != [] {
      var t := Apply(s, es[0]);
      StepAges(s, es[0]);
      CodeIsSingleUse(t, es[1..], es[0].now, c);
      if Redeems(s, es[0], c) {
        ExchangeWrites(s, es[0].op.oauth.exchangeRequest, es[0].op.oauth.newSecret, es[0].now);
      }
    }
  }

  /** A token once found dead, or past its expiry, is refused forever after. */
  lemma DeadTokenStaysDead(s: State, k: Secret, es: seq<Event>, clock: int, later: int)
    requires Sha256(k) in s.tokens && ValidRun(s, es, clock)
    requires s.tokens[Sha256(k)].status != TokenActive || s.tokens[Sha256(k)].expiresAt <= later
    ensures ResolveToken(RunEnd(s, es), k, later).1.Refused?
  {
    RunAges(s, es, clock);
  }

  /** What a caller sees: after an expired, revoked or revoking answer no later resolution succeeds. */
  lemma FoundDeadNeverAuthorized(s: State, k: Secret, now: int, es: seq<Event>, clock: int, later: int)
    ensures var (t, r) := ResolveToken(s, k, now);
      r.Refused? && (r.status.DeadToken? || r.status == ExpiredToken) && ValidRun(t, es, clock)
      ==> ResolveToken(RunEnd(t, es), k, later).1.Refused?
    ensures var (t, r) := RevokeToken(s, k);
      r.Ok? && ValidRun(t, es, clock) ==> ResolveToken(RunEnd(t, es), k, later).1.Refused?
  {
    var (t, r) := ResolveToken(s, k, now);
    if r.Refused? && (r.status.DeadToken? || r.status == ExpiredToken) && ValidRun(t, es, clock) {
      DeadTokenStaysDead(t, k, es, clock, later);
    }
    var (t', r') := RevokeToken(s, k);
    if r'.Ok? && ValidRun(t', es, clock) {
      DeadTokenStaysDead(t', k, es, clock, later);
    }
  }

  // ---------- conservation between codes and tokens ----------

  /** `source` sends every token to the redeemed code it came from: onto, one to one, same grant. */
  ghost predicate GrantMap(s: State, source: map<Hash, Id>) {
    && source.Keys == s.tokens.Keys
    && (forall h, k | h in source && k in source && source[h] == source[k] :: h == k)
    && (forall h | h in source ::
          source[h] in s.codes && s.codes[source[h]].status == CodeRedeemed && s.codes[source[h]].grant == s.tokens[h].grant)
    && (forall c | c in s.codes && s.codes[c].status == CodeRedeemed :: exists h :: h in source && source[h] == c)
  }

  ghost predicate TokensComeFromCodes(s: State) {
    exists source :: GrantMap(s, source)
  }

  lemma EmptyTokensComeFromCodes()
    ensures TokensComeFromCodes(EmptyState)
  {
    assert GrantMap(EmptyState, map[]);
  }

  lemma ExchangeExtendsGrantMap(s: State, source: map<Hash, Id>, req: ExchangeRequest, k: Secret, now: int)
    requires GrantMap(s, source) && Sha256(k) !in s.tokens
    ensures TokensComeFromCodes(Exchange(s, req, k, now).0)
  {
    var (t, r) := Exchange(s, req, k, now);
    ExchangeExactly(s, req, k, now);
    if r.Ok? {
      var source' := source[Sha256(k) := req.code];
      forall c | c in t.codes && t.codes[c].status == CodeRedeemed
        ensures exists h :: h in source' && source'[h] == c
      {
        if c == req.code {
          assert source'[Sha256(k)] == c;
        } else {
          var h :| h in source && source[h] == c;
          assert source'[h] == c;
        }
      }
      assert GrantMap(t, source');
    } else {
      assert GrantMap(t, source);
    }
  }

  lemma SameSourcesKeepGrantMap(s: State, t: State, source: map<Hash, Id>)
    requires GrantMap(s, source) && CodesAge(s, t) && TokensAge(s, t)
    requires t.tokens.Keys == s.tokens.Keys
    requires forall c | c in t.codes && t.codes[c].status == CodeRedeemed :: c in s.codes && s.codes[c].status == CodeRedeemed
    ensures GrantMap(t, source)
  {
  }

  lemma OAuthKeepsGrantMap(s: State, op: OAuthOp, now: int, source: map<Hash, Id>)
    requires GrantMap(s, source) && FreshOAuth(s, op)
    ensures TokensComeFromCodes(ApplyOAuth(s, op, now))
  {
    OAuthAges(s, op, now);
    match op
    case ExchangeOp(req, k) => ExchangeExtendsGrantMap(s, source, req, k, now);
    case IssueCodeOp(req, c) =>
      IssueCodeWrites(s, req, c, now);
      SameSourcesKeepGrantMap(s, ApplyOAuth(s, op, now), source);
    case ResolveOp(k) =>
      ResolveWrites(s, k, now);
      SameSourcesKeepGrantMap(s, ApplyOAuth(s, op, now), source);
    case RevokeOp(k) => SameSourcesKeepGrantMap(s, ApplyOAuth(s, op, now), source);
  }

  lemma StepKeepsGrantMap(s: State, e: Event)
    requires TokensComeFromCodes(s) && Fresh(s, e.op)
    ensures TokensComeFromCodes(Apply(s, e))
  {
    var source :| GrantMap(s, source);
    if e.op.OAuth? {
      OAuthKeepsGrantMap(s, e.op.oauth, e.now, source);
    } else {
      StepAges(s, e);
      OtherStepsLeaveGrants(s, e);
      SameSourcesKeepGrantMap(s, Apply(s, e), source);
    }
  }

  lemma {:induction false} RunKeepsGrantMap(s: State, es: seq<Event>, clock: int)
    requires TokensComeFromCodes(s) && ValidRun(s, es, clock)
    ensures TokensComeFromCodes(RunEnd(s, es))
    decreases |es|
  {
    if es != [] {
      StepKeepsGrantMap(s, es[0]);
      RunKeepsGrantMap(Apply(s, es[0]), es[1..], es[0].now);
    }
  }

  ghost function RedeemedCodes(s: State): set<Id> {
    set c | c in s.codes && s.codes[c].status == CodeRedeemed
  }

  lemma GrantMapCounts(s: State, source: map<Hash, Id>)
    requires GrantMap(s, source)
    ensures |s.tokens.Keys| == |RedeemedCodes(s)|
  {
    forall c | c in RedeemedCodes(s) ensures exists h :: h in s.tokens.Keys && source[h] == c {
      var h :| h in source && source[h] == c;
    }
    OneToOneOntoCounts(source, s.tokens.Keys, RedeemedCodes(s));
  }

  /** In every reachable state there are exactly as many tokens as redeemed codes. */
  lemma TokensCountRedeemedCodes(es: seq<Event>, clock: int)
    requires ValidRun(EmptyState, es, clock)
    ensures |RunEnd(EmptyState, es).tokens.Keys| == |RedeemedCodes(RunEnd(EmptyState, es))|
  {
    EmptyTokensComeFromCodes();
    RunKeepsGrantMap(EmptyState, es, clock);
    var source :| GrantMap(RunEnd(EmptyState, es), source);
    GrantMapCounts(RunEnd(EmptyState, es), source);
  }

  lemma {:induction false} OneToOneOntoCounts(f: map<Hash, Id>, from: set<Hash>, onto: set<Id>)
    requires from <= f.Keys
    requires forall h, k | h in from && k in from && f[h] == f[k] :: h == k
    requires forall h | h in from :: f[h] in onto
    requires forall c | c in onto :: exists h :: h in from && f[h] == c
    ensures |from| == |onto|
    decreases |from|
  {
    if from == {} {
      assert onto == {};
    } else {
      var h :| h in from;
      forall c | c in onto - {f[h]} ensures exists k :: k in from - {h} && f[k] == c {
        var k :| k in from && f[k] == c;
        assert k in from - {h};
      }
      OneToOneOntoCounts(f, from - {h}, onto - {f[h]});
    }
  }
}
