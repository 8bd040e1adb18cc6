/**
 Progress of the sign-in flow: what guarantees that the next operation answers `ok`.
 The guarantees hold from every reachable state, and survive any interleaving of the
 registry's own operations; only the environment's switching-off steps can break them.
 */
module AccountFlow {
  import opened Options
  import opened AccountRecords
  import opened AccountOperations
  import opened AccountInvariant
  import opened AccountGrants
  import AccountScopes

  // ---------- eligible users always have a profile ----------

  ghost predicate EligibleServed(s: State) {
    forall u :: Eligible(s.users, u) ==> DefaultProfile(s, u).Some?
  }

  lemma {:induction false} SomeOwnedSomeFirst(order: seq<Id>, profiles: map<Id, Profile>, u: Id, p: Id)
    requires p in order && Owned(profiles, p, u)
    ensures FirstOwned(order, profiles, u).Some?
  {
  }

  lemma ServedExtends(s: State, t: State)
    requires EligibleServed(s) && Extends(s, t) && OrderListsProfiles(t.profileOrder, t.profiles)
    requires forall u :: Eligible(t.users, u) ==> Eligible(s.users, u) || DefaultProfile(t, u).Some?
    ensures EligibleServed(t)
  {
    forall u: Id | Eligible(t.users, u) && Eligible(s.users, u) ensures DefaultProfile(t, u).Some? {
      var p := DefaultProfile(s, u).value;
      SomeOwnedSomeFirst(t.profileOrder, t.profiles, u, p);
    }
  }

  /** Redemption is the only step that makes anyone eligible. */
  lemma OthersMakeNobodyEligible(s: State, e: Event, u: Id)
    requires !(e.op.Account? && e.op.account.RedeemOp?)
    ensures Eligible(Apply(s, e).users, u) ==> Eligible(s.users, u)
  {
    match e.op
    case Account(a) => AccountMakesNobodyEligible(s, a, e.now, u);
    case OAuth(o) => OAuthKeepsAccounts(s, o, e.now);
    case Environment(_) =>
  }

  lemma AccountMakesNobodyEligible(s: State, op: AccountOp, now: int, u: Id)
    requires !op.RedeemOp?
    ensures Eligible(ApplyAccount(s, op, now).users, u) ==> Eligible(s.users, u)
  {
    match op
    case IssueInviteOp(_) =>
    case RegisterDeviceOp(email, user, d) =>
    case PairOp(email, d, k) => PairWrites(s, email, d, k, now);
    case RegisterDesktopOp(email, asked, newUser, p, d, k) => DesktopWrites(s, email, asked, newUser, p, d, k, now);
    case LinkOp(d, p, k) => LinkWrites(s, d, p, k, now);
    case RegisterClientOp(_, _) =>
  }

  lemma OAuthKeepsAccounts(s: State, op: OAuthOp, now: int)
    ensures SameAccounts(s, ApplyOAuth(s, op, now))
  {
    match op
    case IssueCodeOp(req, c) => IssueCodeWrites(s, req, c, now);
    case ExchangeOp(req, k) => ExchangeWrites(s, req, k, now);
    case ResolveOp(k) => ResolveWrites(s, k, now);
    case RevokeOp(k) =>
  }

  /** Only codes and tokens may differ. */
  ghost predicate SameAccounts(s: State, t: State) {
    t == s.(codes := t.codes, tokens := t.tokens)
  }

  lemma StepServes(s: State, e: Event)
    requires Inv(s) && EligibleServed(s) && Fresh(s, e.op)
    ensures EligibleServed(Apply(s, e))
  {
    StepKeeps(s, e);
    var t := Apply(s, e);
    if e.op.Account? && e.op.account.RedeemOp? {
      var a := e.op.account;
      RedeemServes(s, a.email, a.invite, a.newUser, a.newProfile);
    } else {
      forall u: Id | Eligible(t.users, u) ensures Eligible(s.users, u) {
        OthersMakeNobodyEligible(s, e, u);
      }
      ServedExtends(s, t);
    }
  }

  lemma RedeemServes(s: State, email: string, i: Id, newUser: Id, newProfile: Id)
    requires Inv(s) && EligibleServed(s) && newUser !in s.users && newProfile !in s.profiles
    ensures EligibleServed(RedeemInvite(s, email, i, newUser, newProfile).0)
  {
    RedeemKeeps(s, email, i, newUser, newProfile);
    var (t, r) := RedeemInvite(s, email, i, newUser, newProfile);
    if r.Ok? {
      if DefaultProfile(s, r.value).None? {
        SomeOwnedSomeFirst(t.profileOrder, t.profiles, r.value, newProfile);
      }
      ServedExtends(s, t);
    }
  }

  lemma {:induction false} RunServes(s: State, es: seq<Event>, clock: int)
    requires Inv(s) && EligibleServed(s) && ValidRun(s, es, clock)
    ensures Inv(RunEnd(s, es)) && EligibleServed(RunEnd(s, es))
    decreases |es|
  {
    if es != [] {
      StepKeeps(s, es[0]);
      StepServes(s, es[0]);
      RunServes(Apply(s, es[0]), es[1..], es[0].now);
    }
  }

  // ---------- pairing ----------

  /**
   The account tables after a pairing: one device and one link more, the device as the default of the one profile
   that is linked, and no other record touched.
   */
  lemma PairWrites(s: State, email: string, d: Id, k: Secret, now: int)
    ensures var (t, r) := PairDevice(s, email, d, k, now);
      && t.invites == s.invites && t.users == s.users && t.clients == s.clients && t.profileOrder == s.profileOrder
      && t.codes == s.codes && t.tokens == s.tokens
      && (r.Refused? ==> t.links == s.links && t.profiles == s.profiles)
      && (r.Ok? ==> t.links == s.links + [r.value] && r.value.profileId in s.profiles && r.value.deviceId == d
                    && t.profiles == s.profiles[r.value.profileId := s.profiles[r.value.profileId].(defaultDevice := Some(d))])
      && (t.devices == s.devices || exists u :: t.devices == s.devices[d := Device(u, true)])
  {
    var user := UserByEmail(s.users, NormalizeEmail(email));
    if user.Some? && DefaultProfile(s, user.value).Some? {
      RegisterWrites(s, user.value, d);
      LinkWrites(RegisterDevice(s, "", user, d).0, d, DefaultProfile(s, user.value).value, k, now);
    }
  }

  /** Registering adds the device for its user, or refuses and writes nothing. */
  lemma RegisterWrites(s: State, u: Id, d: Id)
    ensures var t := RegisterDevice(s, "", Some(u), d).0; t == s || t == s.(devices := s.devices[d := Device(u, true)])
  {
  }

  lemma DesktopWrites(s: State, email: string, asked: Option<Id>, newUser: Id, newProfile: Id, d: Id, k: Secret, now: int)
    ensures var (t, r) := RegisterDesktop(s, email, asked, newUser, newProfile, d, k, now);
      && t.invites == s.invites && t.clients == s.clients
      && (t.users == s.users || t.users == s.users[newUser := User(NormalizeEmail(email), false)])
      && (r.Refused? ==> t.links == s.links)
      && (r.Ok? ==> t.links == s.links + [r.value])
      && (exists u :: t.devices == s.devices[d := Device(u, true)])
  {
    var known := UserByEmail(s.users, NormalizeEmail(email));
    var u := if known.Some? then known.value else newUser;
    var p := DesktopProfile(s, u, asked, newProfile).0;
    var s1 := BeforeDesktopLink(s, email, asked, newUser, newProfile, d);
    assert s1.devices == s.devices[d := Device(u, true)];
    LinkWrites(s1, d, p, k, now);
  }

  lemma {:induction false} FirstOwnedByOwners(order: seq<Id>, before: map<Id, Profile>, after: map<Id, Profile>, u: Id)
    requires forall p | p in order :: Owned(before, p, u) <==> Owned(after, p, u)
    ensures FirstOwned(order, before, u) == FirstOwned(order, after, u)
  {
    if order != [] && !Owned(before, order[0], u) {
      FirstOwnedByOwners(order[1..], before, after, u);
    }
  }

  /** Ready to sign in: eligible, with a default profile whose default device is linked and live. */
  ghost predicate Ready(s: State, u: Id, p: Id, d: Id) {
    && Eligible(s.users, u)
    && DefaultProfile(s, u) == Some(p)
    && p in s.profiles && s.profiles[p].defaultDevice == Some(d)
    && LiveLink(s, p, d)
  }

  lemma PairMakesReady(s: State, email: string, u: Id, d: Id, k: Secret, now: int)
    requires Inv(s) && EligibleServed(s) && d !in s.devices
    requires UserByEmail(s.users, NormalizeEmail(email)) == Some(u) && Eligible(s.users, u)
    ensures var (t, r) := PairDevice(s, email, d, k, now);
      r.Ok? && Ready(t, u, DefaultProfile(s, u).value, d)
  {
    var p := DefaultProfile(s, u).value;
    var (s1, registered) := RegisterDevice(s, "", Some(u), d);
    assert s1 == s.(devices := s.devices[d := Device(u, true)]);
    LinkWrites(s1, d, p, k, now);
    var (t, r) := LinkDevice(s1, d, p, k, now);
    assert t.links[|s.links|] == r.value;
    assert Usable(t, |s.links|, p, Some(d), None);
    FirstOwnedByOwners(s.profileOrder, s.profiles, t.profiles, u);
  }

  /** In every reachable state, pairing answers `ok` exactly for the emails of eligible users. */
  lemma PairExactly(s: State, email: string, d: Id, k: Secret, now: int)
    requires Inv(s) && EligibleServed(s) && d !in s.devices
    ensures PairDevice(s, email, d, k, now).1.Ok?
      <==> exists u :: Eligible(s.users, u) && s.users[u].email == NormalizeEmail(email)
  {
    var user := UserByEmail(s.users, NormalizeEmail(email));
    if user.Some? && Eligible(s.users, user.value) {
      PairMakesReady(s, email, user.value, d, k, now);
    }
  }

  // ---------- issuing ----------

  /** The request names no profile or device of its own, and its client and challenge are acceptable. */
  ghost predicate Acceptable(s: State, req: CodeRequest) {
    && req.clientId in s.clients && s.clients[req.clientId].active
    && RedirectAllowed(s.clients[req.clientId], req.redirect)
    && (req.challenge.Some? ==> req.challengeMethod == "S256")
    && req.profileId.None? && req.deviceId.None?
  }

  lemma ReadyIssues(s: State, u: Id, p: Id, d: Id, req: CodeRequest, c: Id, now: int)
    requires Inv(s) && Ready(s, u, p, d) && Acceptable(s, req) && ResolveUser(s, req.email, req.userId) == Some(u)
    ensures var (t, r) := IssueCode(s, req, c, now);
      && r.Ok? && t == s.(codes := s.codes[c := r.value])
      && r.value == Code(Grant(req.clientId, u, p, d, AccountScopes.NormalizeScope(req.scope)), req.redirect, req.challenge, r.value.expiresAt, CodeOpen)
      && now + 60 <= r.value.expiresAt
  {
    VerifyMeansLive(s, p, d);
  }

  // ---------- interleaving ----------

  predicate Service(es: seq<Event>) {
    forall i | 0 <= i < |es| :: !es[i].op.Environment?
  }

  predicate Before(es: seq<Event>, limit: int) {
    forall i | 0 <= i < |es| :: es[i].now < limit
  }

  /** Links and devices are only ever added. */
  ghost predicate LinksGrow(s: State, t: State) {
    && |s.links| <= |t.links|
    && (forall i | 0 <= i < |s.links| :: t.links[i] == s.links[i])
    && (forall d | d in s.devices :: d in t.devices && t.devices[d] == s.devices[d])
  }

  lemma AccountGrowsLinks(s: State, op: AccountOp, now: int)
    requires FreshAccount(s, op)
    ensures LinksGrow(s, ApplyAccount(s, op, now))
  {
    match op
    case IssueInviteOp(_) =>
    case RedeemOp(_, _, _, _) =>
    case RegisterDeviceOp(email, user, d) =>
    case PairOp(email, d, k) => PairWrites(s, email, d, k, now);
    case RegisterDesktopOp(email, asked, u, p, d, k) => DesktopWrites(s, email, asked, u, p, d, k, now);
    case LinkOp(d, p, k) => LinkWrites(s, d, p, k, now);
    case RegisterClientOp(_, _) =>
  }

  lemma ServiceStepGrowsLinks(s: State, e: Event)
    requires Fresh(s, e.op) && !e.op.Environment?
    ensures LinksGrow(s, Apply(s, e))
  {
    match e.op
    case Account(a) => AccountGrowsLinks(s, a, e.now);
    case OAuth(o) => OAuthKeepsAccounts(s, o, e.now);
  }

  lemma LiveLinkGrows(s: State, t: State, p: Id, d: Id)
    requires LiveLink(s, p, d) && LinksGrow(s, t) && Extends(s, t)
    ensures LiveLink(t, p, d)
  {
    var i: nat :| Usable(s, i, p, Some(d), None);
    assert Usable(t, i, p, Some(d), None);
  }

  /** No operation of the registry ever breaks a live link. */
  lemma {:induction false} LiveThroughService(s: State, es: seq<Event>, clock: int, p: Id, d: Id)
    requires Inv(s) && ValidRun(s, es, clock) && Service(es) && LiveLink(s, p, d)
    ensures LiveLink(RunEnd(s, es), p, d)
    decreases |es|
  {
    if es != [] {
      var t := Apply(s, es[0]);
      StepKeeps(s, es[0]);
      ServiceStepGrowsLinks(s, es[0]);
      LiveLinkGrows(s, t, p, d);
      LiveThroughService(t, es[1..], es[0].now, p, d);
    }
  }

  lemma UnspentStep(s: State, e: Event, c: Id)
    requires Fresh(s, e.op) && c in s.codes && s.codes[c].status == CodeOpen
    requires e.now < s.codes[c].expiresAt && !Redeems(s, e, c)
    ensures c in Apply(s, e).codes && Apply(s, e).codes[c] == s.codes[c]
  {
    if e.op.OAuth? {
      match e.op.oauth
      case IssueCodeOp(req, c') => IssueCodeWrites(s, req, c', e.now);
      case ExchangeOp(req, k) => ExchangeWrites(s, req, k, e.now);
      case ResolveOp(k) => ResolveWrites(s, k, e.now);
      case RevokeOp(k) =>
    } else {
      OtherStepsLeaveGrants(s, e);
    }
  }

  lemma {:induction false} CodeStaysOpen(s: State, es: seq<Event>, clock: int, c: Id)
    requires ValidRun(s, es, clock) && c in s.codes && s.codes[c].status == CodeOpen
    requires Before(es, s.codes[c].expiresAt) && Redemptions(s, es, c) == 0
    ensures c in RunEnd(s, es).codes && RunEnd(s, es).codes[c] == s.codes[c]
    decreases |es|
  {
    if es != [] {
      UnspentStep(s, es[0], c);
      CodeStaysOpen(Apply(s, es[0]), es[1..], es[0].now, c);
    }
  }

  /** The request presents the code as its client may: right client, redirect and verifier. */
  predicate Presents(record: Code, req: ExchangeRequest) {
    && record.grant.clientId == req.clientId
    && (record.redirect.text == "" || RedirectsMatch(record.redirect, req.redirect))
    && VerifierMatches(record.challenge, req.verifier)
  }

  /** An unspent code stays exchangeable until it expires, whatever the registry does meanwhile. */
  lemma CodeStaysExchangeable(s: State, es: seq<Event>, clock: int, c: Id, req: ExchangeRequest, k: Secret, now: int)
    requires Inv(s) && ValidRun(s, es, clock) && Service(es)
    requires c in s.codes && s.codes[c].status == CodeOpen && Redemptions(s, es, c) == 0
    requires LiveLink(s, s.codes[c].grant.profileId, s.codes[c].grant.deviceId)
    requires req.code == c && Presents(s.codes[c], req)
    requires Before(es, s.codes[c].expiresAt) && now < s.codes[c].expiresAt
    ensures Exchange(RunEnd(s, es), req, k, now).1.Ok?
  {
    CodeStaysOpen(s, es, clock, c);
    LiveThroughService(s, es, clock, s.codes[c].grant.profileId, s.codes[c].grant.deviceId);
    ExchangeExactly(RunEnd(s, es), req, k, now);
  }

  predicate NeverRevokes(es: seq<Event>, k: Secret) {
    forall i | 0 <= i < |es| :: es[i].op != OAuth(RevokeOp(k))
  }

  lemma UnrevokedStep(s: State, e: Event, k: Secret)
    requires Fresh(s, e.op) && Sha256(k) in s.tokens && s.tokens[Sha256(k)].status == TokenActive
    requires e.now < s.tokens[Sha256(k)].expiresAt && e.op != OAuth(RevokeOp(k))
    ensures Sha256(k) in Apply(s, e).tokens && Apply(s, e).tokens[Sha256(k)] == s.tokens[Sha256(k)]
  {
    if e.op.OAuth? {
      match e.op.oauth
      case IssueCodeOp(req, c) => IssueCodeWrites(s, req, c, e.now);
      case ExchangeOp(req, k') => ExchangeWrites(s, req, k', e.now);
      case ResolveOp(k') => ResolveWrites(s, k', e.now);
      case RevokeOp(k') =>
    } else {
      OtherStepsLeaveGrants(s, e);
    }
  }

  lemma {:induction false} TokenStaysActive(s: State, es: seq<Event>, clock: int, k: Secret)
    requires ValidRun(s, es, clock) && Sha256(k) in s.tokens && s.tokens[Sha256(k)].status == TokenActive
    requires Before(es, s.tokens[Sha256(k)].expiresAt) && NeverRevokes(es, k)
    ensures Sha256(k) in RunEnd(s, es).tokens && RunEnd(s, es).tokens[Sha256(k)] == s.tokens[Sha256(k)]
    decreases |es|
  {
    if es != [] {
      UnrevokedStep(s, es[0], k);
      TokenStaysActive(Apply(s, es[0]), es[1..], es[0].now, k);
    }
  }

  /** An unrevoked token stays authorised until it expires, whatever the registry does meanwhile. */
  lemma TokenStaysAuthorized(s: State, es: seq<Event>, clock: int, k: Secret, now: int)
    requires Inv(s) && ValidRun(s, es, clock) && Service(es) && NeverRevokes(es, k)
    requires Sha256(k) in s.tokens && s.tokens[Sha256(k)].status == TokenActive
    requires LiveLink(s, s.tokens[Sha256(k)].grant.profileId, s.tokens[Sha256(k)].grant.deviceId)
    requires Before(es, s.tokens[Sha256(k)].expiresAt) && now < s.tokens[Sha256(k)].expiresAt
    ensures ResolveToken(RunEnd(s, es), k, now).1 == Ok(s.tokens[Sha256(k)].grant)
  {
    TokenStaysActive(s, es, clock, k);
    var g := s.tokens[Sha256(k)].grant;
    LiveThroughService(s, es, clock, g.profileId, g.deviceId);
    ResolveExactly(RunEnd(s, es), k, now);
  }

  // ---------- the whole flow ----------

  /** Redeeming, pairing and issuing from a reachable state all answer `ok`, and leave a live open code. */
  lemma InviteToCode(s: State, email: string, invite: Id, newUser: Id, newProfile: Id, d: Id, linkToken: Secret,
                     req: CodeRequest, c: Id, t1: int, t2: int)
    requires Inv(s) && EligibleServed(s)
    requires invite in s.invites && s.invites[invite].status == InviteOpen
    requires newUser !in s.users && newProfile !in s.profiles && d !in s.devices && c !in s.codes
    requires Acceptable(s, req)
    requires var u := RedeemInvite(s, email, invite, newUser, newProfile).1;
      u.Ok? ==> req.userId == Some(u.value) || (req.userId.None? && req.email != "" && NormalizeEmail(req.email) == NormalizeEmail(email))
    ensures var (s1, redeemed) := RedeemInvite(s, email, invite, newUser, newProfile);
      var (s2, paired) := PairDevice(s1, email, d, linkToken, t1);
      var (s3, issued) := IssueCode(s2, req, c, t2);
      && redeemed.Ok? && paired.Ok? && issued.Ok?
      && issued.value.grant.userId == redeemed.value && issued.value.grant.deviceId == d
      && Inv(s3) && c in s3.codes && s3.codes[c] == issued.value && issued.value.status == CodeOpen
      && t2 + 60 <= issued.value.expiresAt
      && issued.value.redirect == req.redirect && issued.value.challenge == req.challenge
      && issued.value.grant.clientId == req.clientId
      && LiveLink(s3, issued.value.grant.profileId, d)
  {
    var (s1, redeemed) := RedeemInvite(s, email, invite, newUser, newProfile);
    var u := redeemed.value;
    RedeemKeeps(s, email, invite, newUser, newProfile);
    RedeemServes(s, email, invite, newUser, newProfile);
    RedeemedUserFound(s, email, invite, newUser, newProfile);
    var p := DefaultProfile(s1, u).value;
    var (s2, paired) := PairDevice(s1, email, d, linkToken, t1);
    PairMakesReady(s1, email, u, d, linkToken, t1);
    PairKeeps(s1, email, d, linkToken, t1);
    PairWrites(s1, email, d, linkToken, t1);
    assert ResolveUser(s2, req.email, req.userId) == Some(u);
    ReadyIssues(s2, u, p, d, req, c, t2);
    IssueCodeKeeps(s2, req, c, t2);
    LiveLinkGrows(s2, IssueCode(s2, req, c, t2).0, p, d);
  }

  lemma RedeemWrites(s: State, email: string, i: Id, newUser: Id, newProfile: Id)
    requires i in s.invites && s.invites[i].status == InviteOpen
    ensures var (t, r) := RedeemInvite(s, email, i, newUser, newProfile);
      && r.Ok? && t.users == s.users[r.value := User(NormalizeEmail(email), true)]
      && t.devices == s.devices && t.clients == s.clients
  {
  }

  lemma RedeemedUserFound(s: State, email: string, i: Id, newUser: Id, newProfile: Id)
    requires Inv(s) && newUser !in s.users && newProfile !in s.profiles
    requires i in s.invites && s.invites[i].status == InviteOpen
    ensures var (t, r) := RedeemInvite(s, email, i, newUser, newProfile);
      && r.Ok? && Eligible(t.users, r.value) && UserByEmail(t.users, NormalizeEmail(email)) == Some(r.value)
      && t.devices == s.devices && t.clients == s.clients
  {
    var (t, r) := RedeemInvite(s, email, i, newUser, newProfile);
    RedeemKeeps(s, email, i, newUser, newProfile);
    RedeemWrites(s, email, i, newUser, newProfile);
    EmailFindsItsUser(t.users, r.value);
  }

  lemma EmailFindsItsUser(users: map<Id, User>, u: Id)
    requires EmailsUnique(users) && u in users
    ensures UserByEmail(users, users[u].email) == Some(u)
  {
  }

  /**
   From an open invite to an authorised token. After redeeming, pairing and issuing, any run of the
   registry's operations that does not spend the code may intervene before the exchange, and any run
   that does not revoke the token before it is resolved; within the two lifetimes every answer is `ok`.
   */
  lemma InviteToAuthorizedToken(
      s: State, email: string, invite: Id, newUser: Id, newProfile: Id, d: Id, linkToken: Secret,
      req: CodeRequest, c: Id, t1: int, t2: int,
      es: seq<Event>, exchange: ExchangeRequest, k: Secret, t3: int, es': seq<Event>, t4: int)
    requires Inv(s) && EligibleServed(s)
    requires invite in s.invites && s.invites[invite].status == InviteOpen
    requires newUser !in s.users && newProfile !in s.profiles && d !in s.devices && c !in s.codes
    requires Acceptable(s, req)
    requires var u := RedeemInvite(s, email, invite, newUser, newProfile).1;
      u.Ok? ==> req.userId == Some(u.value) || (req.userId.None? && req.email != "" && NormalizeEmail(req.email) == NormalizeEmail(email))
    requires exchange.code == c
    ensures
      var (s1, redeemed) := RedeemInvite(s, email, invite, newUser, newProfile);
      var (s2, paired) := PairDevice(s1, email, d, linkToken, t1);
      var (s3, issued) := IssueCode(s2, req, c, t2);
      && redeemed.Ok? && paired.Ok? && issued.Ok?
      && (ValidRun(s3, es, t2) && Service(es) && Redemptions(s3, es, c) == 0 && Presents(issued.value, exchange)
          && Before(es, issued.value.expiresAt) && t3 < issued.value.expiresAt && Sha256(k) !in RunEnd(s3, es).tokens
          ==>
            var (s4, exchanged) := Exchange(RunEnd(s3, es), exchange, k, t3);
            && exchanged.Ok?
            && (ValidRun(s4, es', t3) && Service(es') && NeverRevokes(es', k)
                && Before(es', exchanged.value.expiresAt) && t4 < exchanged.value.expiresAt
                ==> ResolveToken(RunEnd(s4, es'), k, t4).1 == Ok(issued.value.grant)))
  {
    InviteToCode(s, email, invite, newUser, newProfile, d, linkToken, req, c, t1, t2);
    var s1 := RedeemInvite(s, email, invite, newUser, newProfile).0;
    var s2 := PairDevice(s1, email, d, linkToken, t1).0;
    var (s3, issued) := IssueCode(s2, req, c, t2);
    if ValidRun(s3, es, t2) && Service(es) && Redemptions(s3, es, c) == 0 && Presents(issued.value, exchange)
       && Before(es, issued.value.expiresAt) && t3 < issued.value.expiresAt && Sha256(k) !in RunEnd(s3, es).tokens
    {
      ExchangeThenResolve(s3, c, es, t2, exchange, k, t3, es', t4);
    }
  }

  lemma ExchangeThenResolve(s: State, c: Id, es: seq<Event>, clock: int, req: ExchangeRequest, k: Secret, t3: int,
                            es': seq<Event>, t4: int)
    requires Inv(s) && ValidRun(s, es, clock) && Service(es)
    requires c in s.codes && s.codes[c].status == CodeOpen && Redemptions(s, es, c) == 0
    requires LiveLink(s, s.codes[c].grant.profileId, s.codes[c].grant.deviceId)
    requires req.code == c && Presents(s.codes[c], req)
    requires Before(es, s.codes[c].expiresAt) && t3 < s.codes[c].expiresAt && Sha256(k) !in RunEnd(s, es).tokens
    ensures var (s4, exchanged) := Exchange(RunEnd(s, es), req, k, t3);
      && exchanged.Ok?
      && (ValidRun(s4, es', t3) && Service(es') && NeverRevokes(es', k)
          && Before(es', exchanged.value.expiresAt) && t4 < exchanged.value.expiresAt
          ==> ResolveToken(RunEnd(s4, es'), k, t4).1 == Ok(s.codes[c].grant))
  {
    var t := RunEnd(s, es);
    var g := s.codes[c].grant;
    RunKeeps(s, es, clock);
    CodeStaysOpen(s, es, clock, c);
    CodeStaysExchangeable(s, es, clock, c, req, k, t3);
    LiveThroughService(s, es, clock, g.profileId, g.deviceId);
    var (s4, exchanged) := Exchange(t, req, k, t3);
    ExchangeWrites(t, req, k, t3);
    ExchangeKeeps(t, req, k, t3);
    LiveLinkGrows(t, s4, g.profileId, g.deviceId);
    if ValidRun(s4, es', t3) && Service(es') && NeverRevokes(es', k)
       && Before(es', exchanged.value.expiresAt) && t4 < exchanged.value.expiresAt
    {
      TokenStaysAuthorized(s4, es', t3, k, t4);
    }
  }
}
