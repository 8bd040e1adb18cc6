/**
 What each operation of `AccountControlPlaneRegistry` does to the stored document:
 a function from the document before to the document after and the reply. Minted
 identifiers and secrets are parameters, so every statement holds for all of them.
 */
module AccountOperations {
  import opened Options
  import opened AccountRecords
  import AccountScopes
  import Text

  // ---------- lookups ----------

  ghost function UserByEmail(users: map<Id, User>, email: string): (r: Option<Id>)
    ensures r.Some? ==> r.value in users && users[r.value].email == email
    ensures r.None? ==> forall u | u in users :: users[u].email != email
  {
    if exists u :: u in users && users[u].email == email then
      var u :| u in users && users[u].email == email;
      Some(u)
    else
      None
  }

  /** `_resolve_user`; an absent email is the empty string. */
  ghost function ResolveUser(s: State, email: string, userId: Option<Id>): (r: Option<Id>)
    ensures r.Some? ==> r.value in s.users
  {
    match userId
    case Some(u) => if u in s.users then Some(u) else None
    case None => if email == "" then None else UserByEmail(s.users, NormalizeEmail(email))
  }

  predicate Owned(profiles: map<Id, Profile>, p: Id, u: Id) {
    p in profiles && profiles[p].userId == Some(u)
  }

  /** The first profile, in insertion order, that belongs to the user. */
  function FirstOwned(order: seq<Id>, profiles: map<Id, Profile>, u: Id): (r: Option<Id>)
    ensures r.Some? ==> r.value in order && Owned(profiles, r.value, u)
    ensures r.None? ==> forall p | p in order :: !Owned(profiles, p, u)
  {
    if order == [] then None
    else if Owned(profiles, order[0], u) then Some(order[0])
    else FirstOwned(order[1..], profiles, u)
  }

  /** The user owns the profile at this place of the order and none before it. */
  ghost predicate FirstOwnedAt(order: seq<Id>, profiles: map<Id, Profile>, u: Id, k: nat) {
    k < |order| && Owned(profiles, order[k], u) && forall j | 0 <= j < k :: !Owned(profiles, order[j], u)
  }

  /** The default profile is the first one, in insertion order, that the user owns. */
  lemma {:induction false} FirstOwnedExactly(order: seq<Id>, profiles: map<Id, Profile>, u: Id, p: Id)
    ensures FirstOwned(order, profiles, u) == Some(p) <==> exists k: nat :: FirstOwnedAt(order, profiles, u, k) && order[k] == p
  {
    if order == [] {
    } else if Owned(profiles, order[0], u) {
      assert FirstOwnedAt(order, profiles, u, 0);
    } else {
      FirstOwnedExactly(order[1..], profiles, u, p);
      if k: nat :| FirstOwnedAt(order[1..], profiles, u, k) && order[1..][k] == p {
        assert FirstOwnedAt(order, profiles, u, k + 1);
      }
      if k: nat :| FirstOwnedAt(order, profiles, u, k) && order[k] == p {
        assert FirstOwnedAt(order[1..], profiles, u, k - 1) && order[1..][k - 1] == p;
      }
    }
  }

  function DefaultProfile(s: State, u: Id): (r: Option<Id>) {
    FirstOwned(s.profileOrder, s.profiles, u)
  }

  /** The conditions under which one stored link authorises a (profile, device) pair. */
  predicate Usable(s: State, i: nat, p: Id, device: Option<Id>, token: Option<Secret>) {
    && i < |s.links|
    && p in s.profiles
    && var link := s.links[i];
    && link.profileId == p
    && link.active
    && (device.Some? ==> link.deviceId == device.value)
    && link.deviceId in s.devices
    && s.devices[link.deviceId].active
    && s.profiles[p].userId == Some(s.devices[link.deviceId].userId)
    && (token.Some? ==> link.tokenHash == Sha256(token.value))
  }

  /**
   The first usable link of the profile's links sorted by `updated_at`, latest first:
   the sort is stable, so among equally recent links the earliest stored wins.
   */
  function BestLink(s: State, p: Id, device: Option<Id>, token: Option<Secret>, n: nat): (r: Option<nat>)
    requires n <= |s.links|
    ensures r.Some? ==> r.value < n
  {
    if n == 0 then None
    else
      var best := BestLink(s, p, device, token, n - 1);
      if Usable(s, n - 1, p, device, token)
         && (best.None? || s.links[best.value].updatedAt < s.links[n - 1].updatedAt)
      then Some(n - 1) else best
  }

  lemma {:induction false} BestLinkIsBest(s: State, p: Id, device: Option<Id>, token: Option<Secret>, n: nat)
    requires n <= |s.links|
    ensures var r := BestLink(s, p, device, token, n);
      if r.None? then forall i: nat | i < n :: !Usable(s, i, p, device, token)
      else
        && r.value < n && Usable(s, r.value, p, device, token)
        && forall i: nat | i < n && Usable(s, i, p, device, token) ::
             s.links[i].updatedAt < s.links[r.value].updatedAt
             || (s.links[i].updatedAt == s.links[r.value].updatedAt && r.value <= i)
  {
    if n != 0 {
      BestLinkIsBest(s, p, device, token, n - 1);
    }
  }

  /** `verify_device_link`: the device of the link that authorises the pair. */
  function VerifyDeviceLink(s: State, p: Id, device: Option<Id>, token: Option<Secret>): Reply<Id> {
    if p !in s.profiles then Refused(UnknownProfile)
    else
      match BestLink(s, p, device, token, |s.links|)
      case Some(i) => Ok(s.links[i].deviceId)
      case None => Refused(NoActiveOwnedDeviceLink)
  }

  /** An active link joins the profile to this active device of the profile's owner. */
  ghost predicate LiveLink(s: State, p: Id, d: Id) {
    exists i: nat :: Usable(s, i, p, Some(d), None)
  }

  /** A blank redirect URI is not registered. */
  function NonBlank(redirects: seq<Redirect>): seq<Redirect> {
    if redirects == [] then []
    else
      var last := redirects[|redirects| - 1];
      NonBlank(redirects[..|redirects| - 1]) + (if last.text == "" then [] else [last])
  }

  predicate RedirectAllowed(client: Client, redirect: Redirect) {
    client.redirects == [] || exists i :: 0 <= i < |client.redirects| && RedirectsMatch(client.redirects[i], redirect)
  }

  // ---------- invites, devices and links ----------

  ghost function RedeemInvite(s: State, email: string, invite: Id, newUser: Id, newProfile: Id): (State, Reply<Id>) {
    if invite !in s.invites || s.invites[invite].status != InviteOpen then (s, Refused(InvalidInvite))
    else
      var known := UserByEmail(s.users, NormalizeEmail(email));
      var u := if known.Some? then known.value else newUser;
      var s1 := s.(users := s.users[u := User(NormalizeEmail(email), true)],
                   invites := s.invites[invite := Invite(InviteRedeemed, Some(u))]);
      if DefaultProfile(s, u).Some? then (s1, Ok(u))
      else (s1.(profiles := s.profiles[newProfile := Profile(Some(u), None)],
                profileOrder := s.profileOrder + [newProfile]),
            Ok(u))
  }

  ghost function RegisterDevice(s: State, email: string, userId: Option<Id>, d: Id): (State, Reply<Id>) {
    var user := ResolveUser(s, email, userId);
    if user.None? then (s, Refused(UnknownUser))
    else if !s.users[user.value].eligible then (s, Refused(HostedBridgeNotEnabled))
    else (s.(devices := s.devices[d := Device(user.value, true)]), Ok(d))
  }

  function LinkDevice(s: State, d: Id, p: Id, token: Secret, now: int): (State, Reply<Link>) {
    if d !in s.devices then (s, Refused(UnknownDevice))
    else if p !in s.profiles then (s, Refused(UnknownProfile))
    else if !s.devices[d].active then (s, Refused(InactiveDevice))
    else if s.profiles[p].userId != Some(s.devices[d].userId) then (s, Refused(OwnershipMismatch))
    else
      var link := Link(s.devices[d].userId, p, d, Sha256(token), true, now);
      (s.(links := s.links + [link],
          profiles := s.profiles[p := s.profiles[p].(defaultDevice := Some(d))]),
       Ok(link))
  }

  ghost function PairDevice(s: State, email: string, d: Id, token: Secret, now: int): (State, Reply<Link>) {
    var user := UserByEmail(s.users, NormalizeEmail(email));
    if user.None? then (s, Refused(UnknownUser))
    else
      var profile := DefaultProfile(s, user.value);
      if profile.None? then (s, Refused(MissingRelayProfile))
      else
        var (s1, registered) := RegisterDevice(s, "", user, d);
        if registered.Refused? then (s1, Refused(registered.status))
        else LinkDevice(s1, d, profile.value, token, now)
  }

  /** The profile a desktop registration settles on, and its record. */
  function DesktopProfile(s: State, u: Id, asked: Option<Id>, newProfile: Id): (Id, Profile) {
    match asked
    case Some(p) =>
      if p !in s.profiles then (p, Profile(Some(u), None))
      else if s.profiles[p].userId.None? then (p, s.profiles[p].(userId := Some(u)))
      else (p, s.profiles[p])
    case None =>
      match DefaultProfile(s, u)
      case Some(p) => (p, s.profiles[p])
      case None => (newProfile, Profile(Some(u), None))
  }

  /** The records a desktop registration stores before it links the device. */
  ghost function BeforeDesktopLink(s: State, email: string, asked: Option<Id>, newUser: Id, newProfile: Id, d: Id): (t: State) {
    var known := UserByEmail(s.users, NormalizeEmail(email));
    var u := if known.Some? then known.value else newUser;
    var (p, profile) := DesktopProfile(s, u, asked, newProfile);
    s.(users := if known.Some? then s.users else s.users[u := User(NormalizeEmail(email), false)],
       profiles := s.profiles[p := profile],
       profileOrder := if p in s.profiles then s.profileOrder else s.profileOrder + [p],
       devices := s.devices[d := Device(u, true)])
  }

  /** Never refused before its last step: the link may still be, on an ownership mismatch. */
  ghost function RegisterDesktop(s: State, email: string, asked: Option<Id>, newUser: Id, newProfile: Id,
                                 d: Id, token: Secret, now: int): (State, Reply<Link>)
  {
    var known := UserByEmail(s.users, NormalizeEmail(email));
    var u := if known.Some? then known.value else newUser;
    LinkDevice(BeforeDesktopLink(s, email, asked, newUser, newProfile, d), d, DesktopProfile(s, u, asked, newProfile).0, token, now)
  }

  // ---------- OAuth: codes and tokens ----------

  datatype CodeRequest = CodeRequest(
    clientId: Id, email: string, userId: Option<Id>, profileId: Option<Id>, deviceId: Option<Id>,
    redirect: Redirect, scope: seq<string>, ttl: int, challenge: Option<Challenge>, challengeMethod: string)

  /** What a code for this request would grant, or the first of the checks that refuses it. */
  ghost function GrantFor(s: State, req: CodeRequest): Reply<Grant> {
    if req.clientId !in s.clients || !s.clients[req.clientId].active then Refused(UnknownClient)
    else if !RedirectAllowed(s.clients[req.clientId], req.redirect) then Refused(RedirectNotAllowed)
    else if req.challenge.Some? && req.challengeMethod != "S256" then Refused(UnsupportedChallengeMethod)
    else
      var user := ResolveUser(s, req.email, req.userId);
      if user.None? then Refused(UnknownUser)
      else if !s.users[user.value].eligible then Refused(HostedBridgeNotEnabled)
      else
        var profile := if req.profileId.Some? then req.profileId else DefaultProfile(s, user.value);
        if profile.None? || !Owned(s.profiles, profile.value, user.value) then Refused(ProfileNotOwned)
        else
          var p := profile.value;
          var wanted := if req.deviceId.Some? then req.deviceId else s.profiles[p].defaultDevice;
          var authz := VerifyDeviceLink(s, p, wanted, None);
          if authz.Refused? then Refused(NoActiveOwnedDeviceLink)
          else Ok(Grant(req.clientId, user.value, p, authz.value, AccountScopes.NormalizeScope(req.scope)))
  }

  ghost function IssueCode(s: State, req: CodeRequest, code: Id, now: int): (State, Reply<Code>) {
    var grant := GrantFor(s, req);
    if grant.Refused? then (s, Refused(grant.status))
    else
      var record := Code(grant.value, req.redirect, req.challenge, now + Lifetime(req.ttl, 600, 60), CodeOpen);
      (s.(codes := s.codes[code := record]), Ok(record))
  }

  datatype ExchangeRequest = ExchangeRequest(clientId: Id, code: Id, redirect: Redirect, ttl: int, verifier: string)

  /** The first check that an exchange fails, if any. */
  function ExchangeRefusal(s: State, req: ExchangeRequest, now: int): Option<Status> {
    if req.code !in s.codes then Some(InvalidGrant)
    else
      var record := s.codes[req.code];
      if record.grant.clientId != req.clientId then Some(InvalidGrant)
      else if record.status != CodeOpen then Some(InvalidGrant)
      else if record.redirect.text != "" && !RedirectsMatch(record.redirect, req.redirect) then Some(InvalidGrant)
      else if record.expiresAt <= now then Some(ExpiredGrant)
      else if record.challenge.Some? && Text.Strip(req.verifier) == "" then Some(MissingVerifier)
      else if record.challenge.Some? && S256(Text.Strip(req.verifier)) != record.challenge.value then Some(InvalidGrant)
      else if VerifyDeviceLink(s, record.grant.profileId, Some(record.grant.deviceId), None).Refused? then
        Some(NoActiveOwnedDeviceLink)
      else None
  }

  /** A code found past its expiry is marked so; one that passes every check is spent for a token. */
  function Exchange(s: State, req: ExchangeRequest, secret: Secret, now: int): (State, Reply<Token>) {
    var refusal := ExchangeRefusal(s, req, now);
    if refusal == Some(ExpiredGrant) then
      (s.(codes := s.codes[req.code := s.codes[req.code].(status := CodeExpired)]), Refused(ExpiredGrant))
    else if refusal.Some? then (s, Refused(refusal.value))
    else
      var token := Token(s.codes[req.code].grant, now + Lifetime(req.ttl, 3600, 300), TokenActive);
      (s.(codes := s.codes[req.code := s.codes[req.code].(status := CodeRedeemed)],
          tokens := s.tokens[Sha256(secret) := token]),
       Ok(token))
  }

  function ResolveToken(s: State, secret: Secret, now: int): (State, Reply<Grant>) {
    var h := Sha256(secret);
    if h !in s.tokens then (s, Refused(InvalidToken))
    else
      var token := s.tokens[h];
      if token.status != TokenActive then (s, Refused(DeadToken(token.status)))
      else if token.expiresAt <= now then
        (s.(tokens := s.tokens[h := token.(status := TokenExpired)]), Refused(ExpiredToken))
      else if VerifyDeviceLink(s, token.grant.profileId, Some(token.grant.deviceId), None).Refused? then
        (s, Refused(NoActiveOwnedDeviceLink))
      else (s, Ok(token.grant))
  }

  function RevokeToken(s: State, secret: Secret): (State, Reply<()>) {
    var h := Sha256(secret);
    if h !in s.tokens then (s, Refused(NotFound))
    else (s.(tokens := s.tokens[h := s.tokens[h].(status := TokenRevoked)]), Ok(()))
  }

  // ---------- one step of a run ----------

  datatype AccountOp =
    | IssueInviteOp(newInvite: Id)
    | RedeemOp(email: string, invite: Id, newUser: Id, newProfile: Id)
    | RegisterDeviceOp(email: string, userId: Option<Id>, newDevice: Id)
    | RegisterDesktopOp(email: string, asked: Option<Id>, newUser: Id, newProfile: Id, newDevice: Id, linkToken: Secret)
    | LinkOp(device: Id, profile: Id, linkToken: Secret)
    | PairOp(email: string, newDevice: Id, linkToken: Secret)
    | RegisterClientOp(redirects: seq<Redirect>, newClient: Id)

  datatype OAuthOp =
    | IssueCodeOp(codeRequest: CodeRequest, newCode: Id)
    | ExchangeOp(exchangeRequest: ExchangeRequest, newSecret: Secret)
    | ResolveOp(secret: Secret)
    | RevokeOp(secret: Secret)

  /** The registry has no operation that switches a record off; the environment may. */
  datatype SwitchOff = LinkOff(link: nat) | DeviceOff(device: Id) | ClientOff(client: Id)

  datatype Op = Account(account: AccountOp) | OAuth(oauth: OAuthOp) | Environment(off: SwitchOff)

  datatype Event = Event(now: int, op: Op)

  /** The minted identifiers do not collide with stored ones: the source's uuid assumption. */
  predicate Fresh(s: State, op: Op) {
    match op
    case Account(a) => FreshAccount(s, a)
    case OAuth(o) => FreshOAuth(s, o)
    case Environment(_) => true
  }

  predicate FreshAccount(s: State, op: AccountOp) {
    match op
    case IssueInviteOp(i) => i !in s.invites
    case RedeemOp(_, _, u, p) => u !in s.users && p !in s.profiles
    case RegisterDeviceOp(_, _, d) => d !in s.devices
    case RegisterDesktopOp(_, _, u, p, d, _) => u !in s.users && p !in s.profiles && d !in s.devices
    case LinkOp(_, _, _) => true
    case PairOp(_, d, _) => d !in s.devices
    case RegisterClientOp(_, c) => c !in s.clients
  }

  predicate FreshOAuth(s: State, op: OAuthOp) {
    match op
    case IssueCodeOp(_, c) => c !in s.codes
    case ExchangeOp(_, k) => Sha256(k) !in s.tokens
    case _ => true
  }

  ghost function ApplyAccount(s: State, op: AccountOp, now: int): State {
    match op
    case IssueInviteOp(i) => s.(invites := s.invites[i := Invite(InviteOpen, None)])
    case RedeemOp(email, invite, u, p) => RedeemInvite(s, email, invite, u, p).0
    case RegisterDeviceOp(email, userId, d) => RegisterDevice(s, email, userId, d).0
    case RegisterDesktopOp(email, asked, u, p, d, token) => RegisterDesktop(s, email, asked, u, p, d, token, now).0
    case LinkOp(d, p, token) => LinkDevice(s, d, p, token, now).0
    case PairOp(email, d, token) => PairDevice(s, email, d, token, now).0
    case RegisterClientOp(redirects, c) => s.(clients := s.clients[c := Client(NonBlank(redirects), true)])
  }

  ghost function ApplyOAuth(s: State, op: OAuthOp, now: int): State {
    match op
    case IssueCodeOp(req, c) => IssueCode(s, req, c, now).0
    case ExchangeOp(req, k) => Exchange(s, req, k, now).0
    case ResolveOp(k) => ResolveToken(s, k, now).0
    case RevokeOp(k) => RevokeToken(s, k).0
  }

  function ApplyOff(s: State, off: SwitchOff): State {
    match off
    case LinkOff(i) => if i < |s.links| then s.(links := s.links[i := s.links[i].(active := false)]) else s
    case DeviceOff(d) => if d in s.devices then s.(devices := s.devices[d := s.devices[d].(active := false)]) else s
    case ClientOff(c) => if c in s.clients then s.(clients := s.clients[c := s.clients[c].(active := false)]) else s
  }

  ghost function Apply(s: State, e: Event): State {
    match e.op
    case Account(a) => ApplyAccount(s, a, e.now)
    case OAuth(o) => ApplyOAuth(s, o, e.now)
    case Environment(off) => ApplyOff(s, off)
  }

  ghost function RunEnd(s: State, es: seq<Event>): State
    decreases |es|
  {
    if es == [] then s else RunEnd(Apply(s, es[0]), es[1..])
  }

  /** Fresh identifiers at every step, under a clock that never runs backwards. */
  ghost predicate ValidRun(s: State, es: seq<Event>, clock: int)
    decreases |es|
  {
    es == [] || (clock <= es[0].now && Fresh(s, es[0].op) && ValidRun(Apply(s, es[0]), es[1..], es[0].now))
  }
}
