/**
 `AccountControlPlaneRegistry` (astrata/accounts/service.py) as it runs: one object
 whose tables each operation reads, checks and reassigns. Every method is proved to
 do what its function in AccountOperations says, and to keep the object valid: the ownership
 invariant of AccountInvariant holds of the stored document before and after every call.
 */
module AccountRegistry {
  import opened Options
  import opened AccountRecords
  import opened AccountOperations
  import opened AccountInvariant
  import AccountScopes
  import Text

  /** A uuid: some identifier that is not in use. */
  method Mint(used: set<Id>) returns (id: Id)
    ensures id !in used
  {
    id := 0;
    var rest := used;
    while rest != {}
      invariant rest <= used
      invariant forall x: Id | x in used :: x in rest || x < id
      decreases |rest|
    {
      var x: Id :| x in rest;
      if id <= x {
        id := x + 1;
      }
      rest := rest - {x};
    }
  }

  /** What an exchange that passes every check writes. */
  lemma ExchangeSpends(s: State, req: ExchangeRequest, k: Secret, now: int, token: Token)
    requires ExchangeRefusal(s, req, now) == None
    requires token == Token(s.codes[req.code].grant, now + Lifetime(req.ttl, 3600, 300), TokenActive)
    ensures Exchange(s, req, k, now)
      == (s.(codes := s.codes[req.code := s.codes[req.code].(status := CodeRedeemed)], tokens := s.tokens[Sha256(k) := token]), Ok(token))
  {
  }

  lemma ExchangeSpendsKeeps(s: State, req: ExchangeRequest, k: Secret, now: int, token: Token)
    requires Inv(s) && ExchangeRefusal(s, req, now) == None
    requires token == Token(s.codes[req.code].grant, now + Lifetime(req.ttl, 3600, 300), TokenActive)
    ensures var t := s.(codes := s.codes[req.code := s.codes[req.code].(status := CodeRedeemed)],
                        tokens := s.tokens[Sha256(k) := token]);
      Exchange(s, req, k, now) == (t, Ok(token)) && Inv(t)
  {
    ExchangeSpends(s, req, k, now, token);
    SpentCodeKeeps(s, req.code, k, token);
  }

  /** What an exchange of an overdue code writes. */
  lemma ExchangeExpires(s: State, req: ExchangeRequest, k: Secret, now: int)
    requires Inv(s) && ExchangeRefusal(s, req, now) == Some(ExpiredGrant)
    ensures req.code in s.codes
    ensures var t := s.(codes := s.codes[req.code := s.codes[req.code].(status := CodeExpired)]);
      Exchange(s, req, k, now) == (t, Refused(ExpiredGrant)) && Inv(t)
  {
    MarkedCodeKeeps(s, req.code, CodeExpired);
  }

  class AccountControlPlane {
    var users: map<Id, User>
    var invites: map<Id, Invite>
    var profiles: map<Id, Profile>
    var profileOrder: seq<Id>
    var devices: map<Id, Device>
    var links: seq<Link>
    var clients: map<Id, Client>
    var codes: map<Id, Code>
    var tokens: map<Hash, Token>

    /** The stored document. */
    ghost function Stored(): State
      reads this
    {
      State(users, invites, profiles, profileOrder, devices, links, clients, codes, tokens)
    }

    /** The ownership invariant holds of the stored document. */
    ghost predicate Valid()
      reads this
    {
      Inv(Stored())
    }

    constructor ()
      ensures Stored() == EmptyState && Valid()
    {
      users, invites, profiles, profileOrder := map[], map[], map[], [];
      devices, links, clients, codes, tokens := map[], [], map[], map[], map[];
    }

    // ---------- lookups ----------

    method UserForEmail(email: string) returns (user: Option<Id>)
      requires EmailsUnique(users)
      ensures user == UserByEmail(users, NormalizeEmail(email))
    {
      var normalized := NormalizeEmail(email);
      var rest := users.Keys;
      while rest != {}
        invariant rest <= users.Keys
        invariant forall u | u in users.Keys - rest :: users[u].email != normalized
        decreases |rest|
      {
        var u: Id :| u in rest;
        if users[u].email == normalized {
          return Some(u);
        }
        rest := rest - {u};
      }
      return None;
    }

    method ResolveUser(email: string, userId: Option<Id>) returns (user: Option<Id>)
      requires EmailsUnique(users)
      ensures user == AccountOperations.ResolveUser(Stored(), email, userId)
    {
      if userId.Some? {
        return if userId.value in users then userId else None;
      }
      if email != "" {
        user := UserForEmail(email);
      } else {
        user := None;
      }
    }

    method DefaultRelayProfileForUser(u: Id) returns (profile: Option<Id>)
      ensures profile == DefaultProfile(Stored(), u)
    {
      for i := 0 to |profileOrder|
        invariant FirstOwned(profileOrder, profiles, u) == FirstOwned(profileOrder[i..], profiles, u)
      {
        if Owned(profiles, profileOrder[i], u) {
          return Some(profileOrder[i]);
        }
      }
      return None;
    }

    /** Sorting by recency and taking the first match, in one scan that keeps the best so far. */
    method VerifyDeviceLink(p: Id, device: Option<Id>, token: Option<Secret>) returns (r: Reply<Id>)
      ensures r == AccountOperations.VerifyDeviceLink(Stored(), p, device, token)
    {
      if p !in profiles {
        return Refused(UnknownProfile);
      }
      var best: Option<nat> := None;
      for i := 0 to |links|
        invariant best.Some? ==> best.value < i
        invariant best == BestLink(Stored(), p, device, token, i)
      {
        var link := links[i];
        if link.profileId == p && link.active
           && (device.None? || link.deviceId == device.value)
           && link.deviceId in devices && devices[link.deviceId].active
           && profiles[p].userId == Some(devices[link.deviceId].userId)
           && (token.None? || link.tokenHash == Sha256(token.value))
        {
          if best.None? || links[best.value].updatedAt < link.updatedAt {
            best := Some(i);
          }
        }
      }
      if best.Some? {
        return Ok(links[best.value].deviceId);
      }
      return Refused(NoActiveOwnedDeviceLink);
    }

    // ---------- invites, devices and links ----------

    method IssueInviteCode() returns (code: Id)
      requires Valid()
      modifies this
      ensures Valid()
      ensures code !in old(invites)
      ensures Stored() == ApplyAccount(old(Stored()), IssueInviteOp(code), 0)
    {
      code := Mint(invites.Keys);
      AccountKeeps(Stored(), IssueInviteOp(code), 0);
      invites := invites[code := Invite(InviteOpen, None)];
    }

    method RedeemInviteCode(email: string, invite: Id) returns (r: Reply<Id>, ghost newUser: Id, ghost newProfile: Id)
      requires Valid()
      modifies this
      ensures Valid()
      ensures newUser !in old(users) && newProfile !in old(profiles)
      ensures (Stored(), r) == RedeemInvite(old(Stored()), email, invite, newUser, newProfile)
    {
      var userId := Mint(users.Keys);
      var profileId := Mint(profiles.Keys);
      newUser, newProfile := userId, profileId;
      if invite !in invites || invites[invite].status != InviteOpen {
        return Refused(InvalidInvite), newUser, newProfile;
      }
      var existing := UserForEmail(email);
      if existing.Some? {
        userId := existing.value;
      }
      users := users[userId := User(NormalizeEmail(email), true)];
      invites := invites[invite := invites[invite].(status := InviteRedeemed, redeemedBy := Some(userId))];
      var owned := DefaultRelayProfileForUser(userId);
      if owned.None? {
        profiles := profiles[profileId := Profile(Some(userId), None)];
        profileOrder := profileOrder + [profileId];
      }
      r := Ok(userId);
      RedeemKeeps(old(Stored()), email, invite, newUser, newProfile);
    }

    method RegisterDevice(email: string, userId: Option<Id>) returns (r: Reply<Id>, ghost newDevice: Id)
      requires Valid()
      modifies this
      ensures Valid()
      ensures newDevice !in old(devices)
      ensures (Stored(), r) == AccountOperations.RegisterDevice(old(Stored()), email, userId, newDevice)
    {
      var device := Mint(devices.Keys);
      newDevice := device;
      RegisterDeviceKeeps(Stored(), email, userId, newDevice);
      var user := ResolveUser(email, userId);
      if user.None? {
        return Refused(UnknownUser), newDevice;
      }
      if !users[user.value].eligible {
        return Refused(HostedBridgeNotEnabled), newDevice;
      }
      devices := devices[device := Device(user.value, true)];
      r := Ok(device);
    }

    method LinkDeviceToProfile(d: Id, p: Id, token: Secret, now: int) returns (r: Reply<Link>)
      requires Valid()
      modifies this
      ensures Valid()
      ensures (Stored(), r) == LinkDevice(old(Stored()), d, p, token, now)
    {
      LinkKeeps(Stored(), d, p, token, now);
      if d !in devices {
        return Refused(UnknownDevice);
      }
      if p !in profiles {
        return Refused(UnknownProfile);
      }
      if !devices[d].active {
        return Refused(InactiveDevice);
      }
      if profiles[p].userId != Some(devices[d].userId) {
        return Refused(OwnershipMismatch);
      }
      var link := Link(devices[d].userId, p, d, Sha256(token), true, now);
      links := links + [link];
      profiles := profiles[p := profiles[p].(defaultDevice := Some(d))];
      r := Ok(link);
    }

    method PairDeviceForUser(email: string, token: Secret, now: int) returns (r: Reply<Link>, ghost newDevice: Id)
      requires Valid()
      modifies this
      ensures Valid()
      ensures newDevice !in old(devices)
      ensures (Stored(), r) == PairDevice(old(Stored()), email, newDevice, token, now)
    {
      newDevice := Mint(devices.Keys);
      var user := UserForEmail(email);
      if user.None? {
        return Refused(UnknownUser), newDevice;
      }
      var profile := DefaultRelayProfileForUser(user.value);
      if profile.None? {
        return Refused(MissingRelayProfile), newDevice;
      }
      var registered;
      registered, newDevice := RegisterDevice("", user);
      if registered.Refused? {
        return Refused(registered.status), newDevice;
      }
      r := LinkDeviceToProfile(registered.value, profile.value, token, now);
    }

    /** The profile record a desktop registration will write, not yet written. */
    method SettleDesktopProfile(u: Id, asked: Option<Id>, minted: Id) returns (p: Id, profile: Profile)
      ensures (p, profile) == DesktopProfile(Stored(), u, asked, minted)
    {
      p, profile := minted, Profile(Some(u), None);
      if asked.Some? {
        p := asked.value;
        if p in profiles {
          profile := profiles[p];
          if profile.userId.None? {
            profile := profile.(userId := Some(u));
          }
        }
      } else {
        var owned := DefaultRelayProfileForUser(u);
        if owned.Some? {
          p := owned.value;
          profile := profiles[p];
        }
      }
    }

    /** Stores the user, the profile and the device of a desktop registration. */
    method SaveDesktopRecords(email: string, asked: Option<Id>, newUser: Id, newProfile: Id, device: Id) returns (p: Id)
      requires Valid() && newUser !in users && newProfile !in profiles && device !in devices
      modifies this
      ensures Valid()
      ensures Stored() == BeforeDesktopLink(old(Stored()), email, asked, newUser, newProfile, device)
      ensures var known := UserByEmail(old(users), NormalizeEmail(email));
        p == DesktopProfile(old(Stored()), if known.Some? then known.value else newUser, asked, newProfile).0
    {
      var profile;
      var userId := newUser;
      var existing := UserForEmail(email);
      if existing.Some? {
        userId := existing.value;
      }
      p, profile := SettleDesktopProfile(userId, asked, newProfile);
      if existing.None? {
        users := users[userId := User(NormalizeEmail(email), false)];
      }
      if p !in profiles {
        profileOrder := profileOrder + [p];
      }
      profiles := profiles[p := profile];
      devices := devices[device := Device(userId, true)];
      BeforeDesktopLinkKeeps(old(Stored()), email, asked, newUser, newProfile, device);
    }

    method RegisterDesktopDevice(email: string, asked: Option<Id>, token: Secret, now: int)
      returns (r: Reply<Link>, ghost newUser: Id, ghost newProfile: Id, ghost newDevice: Id)
      requires Valid()
      modifies this
      ensures Valid()
      ensures newUser !in old(users) && newProfile !in old(profiles) && newDevice !in old(devices)
      ensures (Stored(), r) == RegisterDesktop(old(Stored()), email, asked, newUser, newProfile, newDevice, token, now)
    {
      var userId := Mint(users.Keys);
      var profileId := Mint(profiles.Keys);
      var device := Mint(devices.Keys);
      newUser, newProfile, newDevice := userId, profileId, device;
      var p := SaveDesktopRecords(email, asked, userId, profileId, device);
      r := LinkDeviceToProfile(device, p, token, now);
    }

    // ---------- OAuth ----------

    method RegisterOAuthClient(redirects: seq<Redirect>) returns (client: Id)
      requires Valid()
      modifies this
      ensures Valid()
      ensures client !in old(clients)
      ensures Stored() == ApplyAccount(old(Stored()), RegisterClientOp(redirects, client), 0)
    {
      var kept: seq<Redirect> := [];
      for i := 0 to |redirects|
        invariant kept == NonBlank(redirects[..i]) && Stored() == old(Stored())
      {
        assert redirects[..i + 1][..i] == redirects[..i];
        if redirects[i].text != "" {
          kept := kept + [redirects[i]];
        }
      }
      assert redirects[..|redirects|] == redirects;
      client := Mint(clients.Keys);
      AccountKeeps(Stored(), RegisterClientOp(redirects, client), 0);
      clients := clients[client := Client(kept, true)];
    }

    method IsRedirectAllowed(client: Client, redirect: Redirect) returns (allowed: bool)
      ensures allowed == RedirectAllowed(client, redirect)
    {
      if client.redirects == [] {
        return true;
      }
      for i := 0 to |client.redirects|
        invariant forall j | 0 <= j < i :: !RedirectsMatch(client.redirects[j], redirect)
      {
        if RedirectsMatch(client.redirects[i], redirect) {
          return true;
        }
      }
      return false;
    }

    /** The checks made before a code is issued, in their order. */
    method AuthorizeCodeRequest(req: CodeRequest) returns (r: Reply<Grant>)
      requires EmailsUnique(users)
      ensures r == GrantFor(Stored(), req)
    {
      if req.clientId !in clients || !clients[req.clientId].active {
        return Refused(UnknownClient);
      }
      var allowed := IsRedirectAllowed(clients[req.clientId], req.redirect);
      if !allowed {
        return Refused(RedirectNotAllowed);
      }
      if req.challenge.Some? && req.challengeMethod != "S256" {
        return Refused(UnsupportedChallengeMethod);
      }
      var user := ResolveUser(req.email, req.userId);
      if user.None? {
        return Refused(UnknownUser);
      }
      if !users[user.value].eligible {
        return Refused(HostedBridgeNotEnabled);
      }
      var profile := req.profileId;
      if profile.None? {
        profile := DefaultRelayProfileForUser(user.value);
      }
      if profile.None? || profile.value !in profiles || profiles[profile.value].userId != user {
        return Refused(ProfileNotOwned);
      }
      var selected := if req.deviceId.Some? then req.deviceId else profiles[profile.value].defaultDevice;
      var authz := VerifyDeviceLink(profile.value, selected, None);
      if authz.Refused? {
        return Refused(NoActiveOwnedDeviceLink);
      }
      var scope := AccountScopes.NormalizeOAuthScope(req.scope);
      r := Ok(Grant(req.clientId, user.value, profile.value, authz.value, scope));
    }

    method IssueOAuthAuthorizationCode(req: CodeRequest, now: int) returns (r: Reply<Code>, ghost newCode: Id)
      requires Valid()
      modifies this
      ensures Valid()
      ensures newCode !in old(codes)
      ensures (Stored(), r) == IssueCode(old(Stored()), req, newCode, now)
    {
      var code := Mint(codes.Keys);
      newCode := code;
      var grant := AuthorizeCodeRequest(req);
      if grant.Refused? {
        return Refused(grant.status), newCode;
      }
      var record := Code(grant.value, req.redirect, req.challenge, now + Lifetime(req.ttl, 600, 60), CodeOpen);
      codes := codes[code := record];
      r := Ok(record);
      assert (Stored(), r) == IssueCode(old(Stored()), req, newCode, now);
      IssueCodeKeeps(old(Stored()), req, newCode, now);
    }

    /** A bearer secret: one whose hash is not stored. */
    method MintSecret() returns (secret: Secret)
      ensures Sha256(secret) !in tokens
    {
      secret := Mint(set h | h in tokens.Keys :: h.of);
    }

    /** The checks made before a code is exchanged, in their order. */
    method CheckExchange(req: ExchangeRequest, now: int) returns (refusal: Option<Status>)
      ensures refusal == ExchangeRefusal(Stored(), req, now)
    {
      if req.code !in codes {
        return Some(InvalidGrant);
      }
      var record := codes[req.code];
      if record.grant.clientId != req.clientId || record.status != CodeOpen {
        return Some(InvalidGrant);
      }
      if record.redirect.text != "" && !RedirectsMatch(record.redirect, req.redirect) {
        return Some(InvalidGrant);
      }
      if record.expiresAt <= now {
        return Some(ExpiredGrant);
      }
      if record.challenge.Some? {
        var verifier := Text.Strip(req.verifier);
        if verifier == "" {
          return Some(MissingVerifier);
        }
        if S256(verifier) != record.challenge.value {
          return Some(InvalidGrant);
        }
      }
      var authz := VerifyDeviceLink(record.grant.profileId, Some(record.grant.deviceId), None);
      refusal := if authz.Refused? then Some(NoActiveOwnedDeviceLink) else None;
    }

    /** The token handed out is a fresh secret; only its hash is stored. */
    method ExchangeOAuthAuthorizationCode(req: ExchangeRequest, now: int) returns (r: Reply<Token>, secret: Secret)
      requires Valid()
      modifies this
      ensures Valid()
      ensures Sha256(secret) !in old(tokens)
      ensures (Stored(), r) == Exchange(old(Stored()), req, secret, now)
    {
      secret := MintSecret();
      var refusal := CheckExchange(req, now);
      if refusal == Some(ExpiredGrant) {
        ExchangeExpires(Stored(), req, secret, now);
        codes := codes[req.code := codes[req.code].(status := CodeExpired)];
        return Refused(ExpiredGrant), secret;
      }
      if refusal.Some? {
        return Refused(refusal.value), secret;
      }
      var token := Token(codes[req.code].grant, now + Lifetime(req.ttl, 3600, 300), TokenActive);
      ExchangeSpendsKeeps(Stored(), req, secret, now, token);
      codes := codes[req.code := codes[req.code].(status := CodeRedeemed)];
      tokens := tokens[Sha256(secret) := token];
      r := Ok(token);
    }

    method ResolveOAuthAccessToken(secret: Secret, now: int) returns (r: Reply<Grant>)
      requires Valid()
      modifies this
      ensures Valid()
      ensures (Stored(), r) == ResolveToken(old(Stored()), secret, now)
    {
      var h := Sha256(secret);
      if h !in tokens {
        return Refused(InvalidToken);
      }
      var token := tokens[h];
      if token.status != TokenActive {
        return Refused(DeadToken(token.status));
      }
      if token.expiresAt <= now {
        MarkedTokenKeeps(Stored(), h, TokenExpired);
        tokens := tokens[h := token.(status := TokenExpired)];
        return Refused(ExpiredToken);
      }
      var authz := VerifyDeviceLink(token.grant.profileId, Some(token.grant.deviceId), None);
      if authz.Refused? {
        return Refused(NoActiveOwnedDeviceLink);
      }
      r := Ok(token.grant);
    }

    method RevokeOAuthAccessToken(secret: Secret) returns (r: Reply<()>)
      requires Valid()
      modifies this
      ensures Valid()
      ensures (Stored(), r) == RevokeToken(old(Stored()), secret)
    {
      RevokeKeeps(Stored(), secret);
      var h := Sha256(secret);
      if h !in tokens {
        return Refused(NotFound);
      }
      tokens := tokens[h := tokens[h].(status := TokenRevoked)];
      r := Ok(());
    }
  }
}
