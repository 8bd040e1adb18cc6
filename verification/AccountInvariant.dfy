/**
 The ownership and eligibility invariant of the account control plane, and one lemma
 per operation that it is kept. No stored field states these facts outright: they
 hold because of what every operation checks before it writes.
 */
module AccountInvariant {
  import opened Options
  import opened AccountRecords
  import opened AccountOperations

  ghost predicate EmailsUnique(users: map<Id, User>) {
    forall u, v | u in users && v in users && users[u].email == users[v].email :: u == v
  }

  /** Some invite was redeemed by this user. */
  ghost predicate Invited(invites: map<Id, Invite>, u: Id) {
    exists i :: i in invites && invites[i].redeemedBy == Some(u)
  }

  ghost predicate Eligible(users: map<Id, User>, u: Id) {
    u in users && users[u].eligible
  }

  ghost predicate EligibleMeansInvited(users: map<Id, User>, invites: map<Id, Invite>) {
    && (forall i | i in invites :: invites[i].status == InviteRedeemed <==> invites[i].redeemedBy.Some?)
    && (forall u :: Eligible(users, u) <==> Invited(invites, u))
  }

  /** The insertion order lists exactly the stored profiles, each once. */
  ghost predicate OrderListsProfiles(order: seq<Id>, profiles: map<Id, Profile>) {
    && (forall p :: p in order <==> p in profiles)
    && (forall i, j | 0 <= i < j < |order| :: order[i] != order[j])
  }

  /** The profile and the device both belong to this owner. */
  ghost predicate Together(profiles: map<Id, Profile>, devices: map<Id, Device>, p: Id, d: Id, owner: Id) {
    && p in profiles && d in devices
    && profiles[p].userId == Some(owner)
    && devices[d].userId == owner
  }

  ghost predicate OwnersExist(users: map<Id, User>, profiles: map<Id, Profile>, devices: map<Id, Device>) {
    && (forall d | d in devices :: devices[d].userId in users)
    && (forall p | p in profiles && profiles[p].userId.Some? :: profiles[p].userId.value in users)
  }

  /** A default device belongs to its profile's owner. */
  ghost predicate DefaultsOwned(profiles: map<Id, Profile>, devices: map<Id, Device>) {
    forall p | p in profiles && profiles[p].defaultDevice.Some? ::
      profiles[p].userId.Some? && Together(profiles, devices, p, profiles[p].defaultDevice.value, profiles[p].userId.value)
  }

  ghost predicate LinksOwned(links: seq<Link>, profiles: map<Id, Profile>, devices: map<Id, Device>) {
    forall l | l in links :: Together(profiles, devices, l.profileId, l.deviceId, l.userId)
  }

  ghost predicate GrantSound(s: State, g: Grant) {
    && g.clientId in s.clients
    && Eligible(s.users, g.userId)
    && Together(s.profiles, s.devices, g.profileId, g.deviceId, g.userId)
  }

  ghost predicate GrantsSound(s: State) {
    && (forall c | c in s.codes :: GrantSound(s, s.codes[c].grant))
    && (forall h | h in s.tokens :: GrantSound(s, s.tokens[h].grant))
  }

  ghost predicate Inv(s: State) {
    && EmailsUnique(s.users)
    && EligibleMeansInvited(s.users, s.invites)
    && OrderListsProfiles(s.profileOrder, s.profiles)
    && OwnersExist(s.users, s.profiles, s.devices)
    && DefaultsOwned(s.profiles, s.devices)
    && LinksOwned(s.links, s.profiles, s.devices)
    && GrantsSound(s)
  }

  lemma EmptyStateInv()
    ensures Inv(EmptyState)
  {
  }

  // ---------- what operations may and may not do to earlier records ----------

  ghost predicate UsersKept(before: map<Id, User>, after: map<Id, User>) {
    forall u | u in before :: u in after && (before[u].eligible ==> after[u].eligible)
  }

  ghost predicate OwnersKept(s: State, t: State) {
    && (forall d | d in s.devices :: d in t.devices && t.devices[d].userId == s.devices[d].userId)
    && (forall p | p in s.profiles ::
          p in t.profiles && (s.profiles[p].userId.Some? ==> t.profiles[p].userId == s.profiles[p].userId))
  }

  /** Records are never dropped, owners never change and eligibility is never lost. */
  ghost predicate Extends(s: State, t: State) {
    UsersKept(s.users, t.users) && OwnersKept(s, t) && s.clients.Keys <= t.clients.Keys
  }

  lemma ExtendsTransitive(s: State, t: State, w: State)
    requires Extends(s, t) && Extends(t, w)
    ensures Extends(s, w)
  {
  }

  /** Links and grants that were sound stay sound in any extension. */
  lemma SoundnessExtends(s: State, t: State)
    requires Extends(s, t)
    ensures LinksOwned(s.links, s.profiles, s.devices) ==> LinksOwned(s.links, t.profiles, t.devices)
    ensures GrantsSound(s) && t.codes == s.codes && t.tokens == s.tokens ==> GrantsSound(t)
  {
    if GrantsSound(s) && t.codes == s.codes && t.tokens == s.tokens {
      forall c | c in t.codes ensures GrantSound(t, t.codes[c].grant) {
        assert GrantSound(s, s.codes[c].grant);
      }
      forall h | h in t.tokens ensures GrantSound(t, t.tokens[h].grant) {
        assert GrantSound(s, s.tokens[h].grant);
      }
    }
  }

  // ---------- the elementary writes ----------

  lemma DeviceAddedExtends(s: State, d: Id, u: Id)
    requires d !in s.devices
    ensures Extends(s, s.(devices := s.devices[d := Device(u, true)]))
  {
  }

  lemma DeviceAddedOwners(users: map<Id, User>, profiles: map<Id, Profile>, devices: map<Id, Device>, d: Id, u: Id)
    requires d !in devices && u in users
    requires OwnersExist(users, profiles, devices) && DefaultsOwned(profiles, devices)
    ensures OwnersExist(users, profiles, devices[d := Device(u, true)])
    ensures DefaultsOwned(profiles, devices[d := Device(u, true)])
  {
  }

  lemma DeviceAdded(s: State, d: Id, u: Id)
    requires Inv(s) && d !in s.devices && u in s.users
    ensures var t := s.(devices := s.devices[d := Device(u, true)]); Inv(t) && Extends(s, t)
  {
    DeviceAddedExtends(s, d, u);
    DeviceAddedOwners(s.users, s.profiles, s.devices, d, u);
    SoundnessExtends(s, s.(devices := s.devices[d := Device(u, true)]));
  }

  /** The profile table gains or changes one record whose owner was absent or stays the same. */
  ghost predicate ProfileWrite(s: State, p: Id, profile: Profile, t: State) {
    && profile.userId.Some? && profile.userId.value in s.users
    && (p in s.profiles ==> s.profiles[p].userId in {None, profile.userId})
    && (profile.defaultDevice.Some? ==>
          profile.defaultDevice.value in s.devices
          && s.devices[profile.defaultDevice.value].userId == profile.userId.value)
    && t == s.(profiles := s.profiles[p := profile],
               profileOrder := if p in s.profiles then s.profileOrder else s.profileOrder + [p])
  }

  lemma ProfileWriteExtends(s: State, p: Id, profile: Profile, t: State)
    requires ProfileWrite(s, p, profile, t)
    ensures Extends(s, t)
  {
  }

  lemma ProfileWriteOwners(s: State, p: Id, profile: Profile, t: State)
    requires ProfileWrite(s, p, profile, t)
    requires OwnersExist(s.users, s.profiles, s.devices) && DefaultsOwned(s.profiles, s.devices)
    ensures OwnersExist(t.users, t.profiles, t.devices) && DefaultsOwned(t.profiles, t.devices)
  {
  }

  lemma ProfileWriteOrder(s: State, p: Id, profile: Profile, t: State)
    requires ProfileWrite(s, p, profile, t) && OrderListsProfiles(s.profileOrder, s.profiles)
    ensures OrderListsProfiles(t.profileOrder, t.profiles)
  {
  }

  lemma ProfileWritten(s: State, p: Id, profile: Profile, t: State)
    requires Inv(s) && ProfileWrite(s, p, profile, t)
    ensures Inv(t) && Extends(s, t)
  {
    ProfileWriteExtends(s, p, profile, t);
    ProfileWriteOwners(s, p, profile, t);
    ProfileWriteOrder(s, p, profile, t);
    SoundnessExtends(s, t);
  }

  lemma LinkAdded(s: State, l: Link)
    requires Inv(s) && Together(s.profiles, s.devices, l.profileId, l.deviceId, l.userId)
    ensures Inv(s.(links := s.links + [l])) && Extends(s, s.(links := s.links + [l]))
  {
    SoundnessExtends(s, s.(links := s.links + [l]));
  }

  /** A user becomes eligible with the invite that vouches for it, or joins ineligible. */
  lemma UserWritten(s: State, u: Id, user: User, t: State)
    requires Inv(s) && t == s.(users := s.users[u := user], invites := t.invites)
    requires forall v | v in s.users && s.users[v].email == user.email :: v == u
    requires Eligible(s.users, u) ==> user.eligible
    requires EligibleMeansInvited(t.users, t.invites)
    ensures Inv(t) && Extends(s, t)
  {
    SoundnessExtends(s, t);
  }

  lemma InvitedAfterRedeem(users: map<Id, User>, invites: map<Id, Invite>, i: Id, u: Id, email: string)
    requires EligibleMeansInvited(users, invites) && i in invites && invites[i].status == InviteOpen
    ensures EligibleMeansInvited(users[u := User(email, true)], invites[i := Invite(InviteRedeemed, Some(u))])
  {
    var after := invites[i := Invite(InviteRedeemed, Some(u))];
    assert after[i].redeemedBy == Some(u);
    forall v: Id ensures Invited(after, v) <==> v == u || Invited(invites, v) {
      if Invited(invites, v) {
        var j :| j in invites && invites[j].redeemedBy == Some(v);
        assert after[j].redeemedBy == Some(v);
      }
    }
    forall v: Id ensures Eligible(users[u := User(email, true)], v) <==> Invited(after, v) {
      assert Eligible(users, v) <==> Invited(invites, v);
    }
  }

  /** Tables other than codes and tokens unchanged, and every grant sound in them. */
  lemma GrantsWritten(s: State, t: State)
    requires Inv(s) && t == s.(codes := t.codes, tokens := t.tokens)
    requires forall c | c in t.codes :: GrantSound(s, t.codes[c].grant)
    requires forall h | h in t.tokens :: GrantSound(s, t.tokens[h].grant)
    ensures Inv(t) && Extends(s, t)
  {
    forall c | c in t.codes ensures GrantSound(t, t.codes[c].grant) {
      assert GrantSound(s, t.codes[c].grant);
    }
    forall h | h in t.tokens ensures GrantSound(t, t.tokens[h].grant) {
      assert GrantSound(s, t.tokens[h].grant);
    }
  }

  // ---------- every operation keeps the invariant ----------

  lemma RedeemKeeps(s: State, email: string, i: Id, u: Id, p: Id)
    requires Inv(s) && u !in s.users && p !in s.profiles
    ensures Inv(RedeemInvite(s, email, i, u, p).0) && Extends(s, RedeemInvite(s, email, i, u, p).0)
  {
    var (t, r) := RedeemInvite(s, email, i, u, p);
    if r.Ok? {
      var v, user := r.value, User(NormalizeEmail(email), true);
      var s1 := s.(users := s.users[v := user], invites := s.invites[i := Invite(InviteRedeemed, Some(v))]);
      InvitedAfterRedeem(s.users, s.invites, i, v, user.email);
      UserWritten(s, v, user, s1);
      if t != s1 {
        ProfileWritten(s1, p, Profile(Some(v), None), t);
        ExtendsTransitive(s, s1, t);
      }
    }
  }

  lemma RegisterDeviceKeeps(s: State, email: string, user: Option<Id>, d: Id)
    requires Inv(s) && d !in s.devices
    ensures Inv(RegisterDevice(s, email, user, d).0) && Extends(s, RegisterDevice(s, email, user, d).0)
  {
    var u := ResolveUser(s, email, user);
    if u.Some? {
      DeviceAdded(s, d, u.value);
    }
  }

  /** An accepted link is stored and becomes its profile's default; nothing else changes. */
  lemma LinkWrites(s: State, d: Id, p: Id, token: Secret, now: int)
    ensures var (t, r) := LinkDevice(s, d, p, token, now);
      if r.Ok? then
        && Together(s.profiles, s.devices, p, d, r.value.userId)
        && r.value.profileId == p && r.value.deviceId == d && r.value.active && s.devices[d].active
        && t == s.(links := s.links + [r.value], profiles := s.profiles[p := s.profiles[p].(defaultDevice := Some(d))])
      else t == s
  {
  }

  lemma LinkAndDefaultWritten(s: State, l: Link)
    requires Inv(s) && Together(s.profiles, s.devices, l.profileId, l.deviceId, l.userId)
    ensures var t := s.(links := s.links + [l],
                        profiles := s.profiles[l.profileId := s.profiles[l.profileId].(defaultDevice := Some(l.deviceId))]);
      Inv(t) && Extends(s, t)
  {
    var s1 := s.(links := s.links + [l]);
    var profile := s.profiles[l.profileId].(defaultDevice := Some(l.deviceId));
    LinkAdded(s, l);
    ProfileWritten(s1, l.profileId, profile, s1.(profiles := s1.profiles[l.profileId := profile]));
    ExtendsTransitive(s, s1, s1.(profiles := s1.profiles[l.profileId := profile]));
  }

  lemma LinkKeeps(s: State, d: Id, p: Id, token: Secret, now: int)
    requires Inv(s)
    ensures Inv(LinkDevice(s, d, p, token, now).0) && Extends(s, LinkDevice(s, d, p, token, now).0)
  {
    var (t, r) := LinkDevice(s, d, p, token, now);
    LinkWrites(s, d, p, token, now);
    if r.Ok? {
      LinkAndDefaultWritten(s, r.value);
    }
  }

  lemma PairKeeps(s: State, email: string, d: Id, token: Secret, now: int)
    requires Inv(s) && d !in s.devices
    ensures Inv(PairDevice(s, email, d, token, now).0) && Extends(s, PairDevice(s, email, d, token, now).0)
  {
    var user := UserByEmail(s.users, NormalizeEmail(email));
    if user.Some? && DefaultProfile(s, user.value).Some? {
      var p := DefaultProfile(s, user.value).value;
      var (s1, registered) := RegisterDevice(s, "", user, d);
      RegisterDeviceKeeps(s, "", user, d);
      if registered.Ok? {
        LinkKeeps(s1, d, p, token, now);
        ExtendsTransitive(s, s1, LinkDevice(s1, d, p, token, now).0);
      }
    }
  }

  lemma BeforeDesktopLinkKeeps(s: State, email: string, asked: Option<Id>, newUser: Id, newProfile: Id, d: Id)
    requires Inv(s) && newUser !in s.users && newProfile !in s.profiles && d !in s.devices
    ensures var t := BeforeDesktopLink(s, email, asked, newUser, newProfile, d); Inv(t) && Extends(s, t)
  {
    var known := UserByEmail(s.users, NormalizeEmail(email));
    var u := if known.Some? then known.value else newUser;
    var users := if known.Some? then s.users else s.users[u := User(NormalizeEmail(email), false)];
    var s2 := s.(users := users, devices := s.devices[d := Device(u, true)]);
    OwnerAndDeviceAdded(s, known, u, NormalizeEmail(email), d);
    var t := BeforeDesktopLink(s, email, asked, newUser, newProfile, d);
    DesktopProfileWrite(s, s2, u, asked, newProfile, t);
    if t != s2 {
      var (p, profile) := DesktopProfile(s, u, asked, newProfile);
      ProfileWritten(s2, p, profile, t);
      ExtendsTransitive(s, s2, t);
    }
  }

  lemma OwnerAndDeviceAdded(s: State, known: Option<Id>, u: Id, email: string, d: Id)
    requires Inv(s) && d !in s.devices && known == UserByEmail(s.users, email)
    requires if known.Some? then u == known.value else u !in s.users
    ensures var t := s.(users := if known.Some? then s.users else s.users[u := User(email, false)],
                        devices := s.devices[d := Device(u, true)]);
      Inv(t) && Extends(s, t)
  {
    if known.Some? {
      DeviceAdded(s, d, u);
    } else {
      var s1 := s.(users := s.users[u := User(email, false)]);
      NewcomerUninvited(s, u, User(email, false));
      UserWritten(s, u, User(email, false), s1);
      DeviceAdded(s1, d, u);
      ExtendsTransitive(s, s1, s1.(devices := s1.devices[d := Device(u, true)]));
    }
  }

  lemma DesktopProfileWrite(s: State, s2: State, u: Id, asked: Option<Id>, newProfile: Id, t: State)
    requires OrderListsProfiles(s.profileOrder, s.profiles) && DefaultsOwned(s.profiles, s.devices)
    requires newProfile !in s.profiles && u in s2.users
    requires s2.profiles == s.profiles && s2.profileOrder == s.profileOrder
    requires forall d | d in s.devices :: d in s2.devices && s2.devices[d] == s.devices[d]
    requires var (p, profile) := DesktopProfile(s, u, asked, newProfile);
      t == s2.(profiles := s.profiles[p := profile],
               profileOrder := if p in s.profiles then s.profileOrder else s.profileOrder + [p])
    ensures t == s2 || (var (p, profile) := DesktopProfile(s, u, asked, newProfile); ProfileWrite(s2, p, profile, t))
  {
    var (p, profile) := DesktopProfile(s, u, asked, newProfile);
    if p in s.profiles && s.profiles[p] == profile {
      assert s.profiles[p := profile] == s.profiles;
    }
  }

  lemma NewcomerUninvited(s: State, u: Id, user: User)
    requires EligibleMeansInvited(s.users, s.invites) && u !in s.users && !user.eligible
    ensures EligibleMeansInvited(s.users[u := user], s.invites)
  {
    forall v: Id ensures Eligible(s.users[u := user], v) <==> Invited(s.invites, v) {
      assert Eligible(s.users, v) <==> Invited(s.invites, v);
    }
  }

  lemma RegisterDesktopKeeps(s: State, email: string, asked: Option<Id>, newUser: Id, newProfile: Id,
                             d: Id, token: Secret, now: int)
    requires Inv(s) && newUser !in s.users && newProfile !in s.profiles && d !in s.devices
    ensures var t := RegisterDesktop(s, email, asked, newUser, newProfile, d, token, now).0;
      Inv(t) && Extends(s, t)
  {
    var known := UserByEmail(s.users, NormalizeEmail(email));
    var p := DesktopProfile(s, if known.Some? then known.value else newUser, asked, newProfile).0;
    var s1 := BeforeDesktopLink(s, email, asked, newUser, newProfile, d);
    BeforeDesktopLinkKeeps(s, email, asked, newUser, newProfile, d);
    LinkKeeps(s1, d, p, token, now);
    ExtendsTransitive(s, s1, LinkDevice(s1, d, p, token, now).0);
  }

  lemma IssueCodeKeeps(s: State, req: CodeRequest, c: Id, now: int)
    requires Inv(s)
    ensures Inv(IssueCode(s, req, c, now).0) && Extends(s, IssueCode(s, req, c, now).0)
  {
    var (t, r) := IssueCode(s, req, c, now);
    IssueCodeWrites(s, req, c, now);
    if r.Ok? {
      GrantsWritten(s, t);
    }
  }

  /** An issued code is the only change, open, and its grant sound where it was issued. */
  lemma IssueCodeWrites(s: State, req: CodeRequest, c: Id, now: int)
    ensures var (t, r) := IssueCode(s, req, c, now);
      if r.Ok? then t == s.(codes := s.codes[c := r.value]) && r.value.status == CodeOpen && GrantSound(s, r.value.grant)
      else t == s
  {
    var user := ResolveUser(s, req.email, req.userId);
    if user.Some? {
      var profile := if req.profileId.Some? then req.profileId else DefaultProfile(s, user.value);
      if profile.Some? && Owned(s.profiles, profile.value, user.value) {
        var wanted := if req.deviceId.Some? then req.deviceId else s.profiles[profile.value].defaultDevice;
        BestLinkIsBest(s, profile.value, wanted, None, |s.links|);
      }
    }
  }

  /** Nothing but codes and tokens changes, and every grant in them was already in a code or a token. */
  ghost predicate GrantsKept(s: State, t: State) {
    && t == s.(codes := t.codes, tokens := t.tokens)
    && (forall c | c in t.codes :: c in s.codes && t.codes[c].grant == s.codes[c].grant)
    && (forall h | h in t.tokens :: (h in s.tokens && t.tokens[h].grant == s.tokens[h].grant)
                                    || exists c :: c in s.codes && t.tokens[h].grant == s.codes[c].grant)
  }

  /** An exchange spends or expires an open code; only when it spends one does it add a token. */
  lemma ExchangeWrites(s: State, req: ExchangeRequest, k: Secret, now: int)
    ensures var (t, r) := Exchange(s, req, k, now);
      && (t != s ==> req.code in s.codes && s.codes[req.code].status == CodeOpen)
      && (if r.Ok? then
            && req.code in s.codes && r.value.grant == s.codes[req.code].grant && r.value.status == TokenActive
            && t == s.(codes := s.codes[req.code := s.codes[req.code].(status := CodeRedeemed)],
                       tokens := s.tokens[Sha256(k) := r.value])
          else if r.status == ExpiredGrant then
            && req.code in s.codes && s.codes[req.code].expiresAt <= now
            && t == s.(codes := s.codes[req.code := s.codes[req.code].(status := CodeExpired)])
          else t == s)
  {
  }

  lemma GrantsKeptKeeps(s: State, t: State)
    requires Inv(s) && GrantsKept(s, t)
    ensures Inv(t) && Extends(s, t)
  {
    GrantsWritten(s, t);
  }

  /** Marking a code spent or expired changes no grant. */
  lemma MarkedCodeKeeps(s: State, c: Id, status: CodeStatus)
    requires Inv(s) && c in s.codes
    ensures var t := s.(codes := s.codes[c := s.codes[c].(status := status)]); Inv(t) && Extends(s, t)
  {
    GrantsKeptKeeps(s, s.(codes := s.codes[c := s.codes[c].(status := status)]));
  }

  /** So does spending a code for a token with its grant. */
  lemma SpentCodeKeeps(s: State, c: Id, k: Secret, token: Token)
    requires Inv(s) && c in s.codes && token.grant == s.codes[c].grant
    ensures var t := s.(codes := s.codes[c := s.codes[c].(status := CodeRedeemed)], tokens := s.tokens[Sha256(k) := token]);
      Inv(t) && Extends(s, t)
  {
    var t := s.(codes := s.codes[c := s.codes[c].(status := CodeRedeemed)], tokens := s.tokens[Sha256(k) := token]);
    assert GrantsKept(s, t);
    GrantsKeptKeeps(s, t);
  }

  lemma ExchangeKeeps(s: State, req: ExchangeRequest, k: Secret, now: int)
    requires Inv(s)
    ensures Inv(Exchange(s, req, k, now).0) && Extends(s, Exchange(s, req, k, now).0)
  {
    var (t, r) := Exchange(s, req, k, now);
    ExchangeWrites(s, req, k, now);
    if r.Ok? {
      SpentCodeKeeps(s, req.code, k, r.value);
    } else if r.status == ExpiredGrant {
      MarkedCodeKeeps(s, req.code, CodeExpired);
    }
  }

  /** Resolution writes at most the expiry of the active token it was given. */
  lemma ResolveWrites(s: State, k: Secret, now: int)
    ensures var (t, r) := ResolveToken(s, k, now);
      t == s
      || (&& r == Refused(ExpiredToken)
          && Sha256(k) in s.tokens && s.tokens[Sha256(k)].status == TokenActive && s.tokens[Sha256(k)].expiresAt <= now
          && t == s.(tokens := s.tokens[Sha256(k) := s.tokens[Sha256(k)].(status := TokenExpired)]))
  {
  }

  /** Marking a token expired or revoked changes no grant. */
  lemma MarkedTokenKeeps(s: State, h: Hash, status: TokenStatus)
    requires Inv(s) && h in s.tokens
    ensures var t := s.(tokens := s.tokens[h := s.tokens[h].(status := status)]); Inv(t) && Extends(s, t)
  {
    GrantsKeptKeeps(s, s.(tokens := s.tokens[h := s.tokens[h].(status := status)]));
  }

  lemma ResolveKeeps(s: State, k: Secret, now: int)
    requires Inv(s)
    ensures Inv(ResolveToken(s, k, now).0) && Extends(s, ResolveToken(s, k, now).0)
  {
    ResolveWrites(s, k, now);
    if ResolveToken(s, k, now).0 != s {
      MarkedTokenKeeps(s, Sha256(k), TokenExpired);
    }
  }

  lemma RevokeKeeps(s: State, k: Secret)
    requires Inv(s)
    ensures Inv(RevokeToken(s, k).0) && Extends(s, RevokeToken(s, k).0)
  {
    if Sha256(k) in s.tokens {
      MarkedTokenKeeps(s, Sha256(k), TokenRevoked);
    }
  }

  lemma AccountKeeps(s: State, op: AccountOp, now: int)
    requires Inv(s) && FreshAccount(s, op)
    ensures Inv(ApplyAccount(s, op, now)) && Extends(s, ApplyAccount(s, op, now))
  {
    match op
    case IssueInviteOp(i) => OpenInviteUninvited(s, i); QuietWrite(s, ApplyAccount(s, op, now));
    case RedeemOp(email, i, u, p) => RedeemKeeps(s, email, i, u, p);
    case RegisterDeviceOp(email, user, d) => RegisterDeviceKeeps(s, email, user, d);
    case RegisterDesktopOp(email, asked, u, p, d, k) => RegisterDesktopKeeps(s, email, asked, u, p, d, k, now);
    case LinkOp(d, p, k) => LinkKeeps(s, d, p, k, now);
    case PairOp(email, d, k) => PairKeeps(s, email, d, k, now);
    case RegisterClientOp(redirects, c) => QuietWrite(s, ApplyAccount(s, op, now));
  }

  lemma OAuthKeeps(s: State, op: OAuthOp, now: int)
    requires Inv(s) && FreshOAuth(s, op)
    ensures Inv(ApplyOAuth(s, op, now)) && Extends(s, ApplyOAuth(s, op, now))
  {
    match op
    case IssueCodeOp(req, c) => IssueCodeKeeps(s, req, c, now);
    case ExchangeOp(req, k) => ExchangeKeeps(s, req, k, now);
    case ResolveOp(k) => ResolveKeeps(s, k, now);
    case RevokeOp(k) => RevokeKeeps(s, k);
  }

  lemma SwitchOffKeeps(s: State, off: SwitchOff)
    requires Inv(s)
    ensures Inv(ApplyOff(s, off)) && Extends(s, ApplyOff(s, off))
  {
    match off
    case LinkOff(i) => if i < |s.links| { LinkOffKeeps(s, i); }
    case DeviceOff(d) => if d in s.devices { DeviceOffKeeps(s, d); }
    case ClientOff(c) => if c in s.clients { QuietWrite(s, ApplyOff(s, off)); }
  }

  lemma StepKeeps(s: State, e: Event)
    requires Inv(s) && Fresh(s, e.op)
    ensures Inv(Apply(s, e)) && Extends(s, Apply(s, e))
  {
    match e.op
    case Account(a) => AccountKeeps(s, a, e.now);
    case OAuth(o) => OAuthKeeps(s, o, e.now);
    case Environment(off) => SwitchOffKeeps(s, off);
  }

  /** Only invites and clients change; no client is dropped and no vouching is lost. */
  lemma QuietWrite(s: State, t: State)
    requires Inv(s) && t == s.(invites := t.invites, clients := t.clients)
    requires s.clients.Keys <= t.clients.Keys && EligibleMeansInvited(t.users, t.invites)
    ensures Inv(t) && Extends(s, t)
  {
    SoundnessExtends(s, t);
  }

  lemma LinkOffKeeps(s: State, i: nat)
    requires Inv(s) && i < |s.links|
    ensures var t := s.(links := s.links[i := s.links[i].(active := false)]); Inv(t) && Extends(s, t)
  {
    var t := s.(links := s.links[i := s.links[i].(active := false)]);
    forall l | l in t.links ensures Together(t.profiles, t.devices, l.profileId, l.deviceId, l.userId) {
      var j :| 0 <= j < |t.links| && t.links[j] == l;
      assert s.links[j] in s.links;
    }
    SoundnessExtends(s, t);
  }

  lemma DeviceOffKeeps(s: State, d: Id)
    requires Inv(s) && d in s.devices
    ensures var t := s.(devices := s.devices[d := s.devices[d].(active := false)]); Inv(t) && Extends(s, t)
  {
    SoundnessExtends(s, s.(devices := s.devices[d := s.devices[d].(active := false)]));
  }

  lemma OpenInviteUninvited(s: State, i: Id)
    requires EligibleMeansInvited(s.users, s.invites) && i !in s.invites
    ensures EligibleMeansInvited(s.users, s.invites[i := Invite(InviteOpen, None)])
  {
    var after := s.invites[i := Invite(InviteOpen, None)];
    forall v: Id ensures Invited(after, v) <==> Eligible(s.users, v) {
      assert Invited(s.invites, v) <==> Eligible(s.users, v);
      if Invited(s.invites, v) {
        var j :| j in s.invites && s.invites[j].redeemedBy == Some(v);
        assert after[j].redeemedBy == Some(v);
      }
    }
  }

  /** Every reachable state: ownership, eligibility and email uniqueness hold throughout. */
  lemma {:induction false} RunKeeps(s: State, es: seq<Event>, clock: int)
    requires Inv(s) && ValidRun(s, es, clock)
    ensures Inv(RunEnd(s, es)) && Extends(s, RunEnd(s, es))
    decreases |es|
  {
    if es != [] {
      var t := Apply(s, es[0]);
      StepKeeps(s, es[0]);
      RunKeeps(t, es[1..], es[0].now);
      ExtendsTransitive(s, t, RunEnd(s, es));
    }
  }

  ghost function EligibleUsers(s: State): set<Id> {
    set u | u in s.users && s.users[u].eligible
  }

  ghost function RedeemedInvites(s: State): set<Id> {
    set i | i in s.invites && s.invites[i].status == InviteRedeemed
  }

  /** Eligible users never outnumber redeemed invites. */
  lemma EligibleAtMostRedeemed(s: State)
    requires Inv(s)
    ensures |EligibleUsers(s)| <= |RedeemedInvites(s)|
  {
    forall u: Id | u in EligibleUsers(s)
      ensures exists i :: i in RedeemedInvites(s) && i in s.invites && s.invites[i].redeemedBy == Some(u)
    {
      assert Eligible(s.users, u);
      var i :| i in s.invites && s.invites[i].redeemedBy == Some(u);
      assert i in RedeemedInvites(s);
    }
    EachHasItsOwnInvite(s, EligibleUsers(s), RedeemedInvites(s));
  }

  lemma {:induction false} EachHasItsOwnInvite(s: State, users: set<Id>, invites: set<Id>)
    requires forall u | u in users :: exists i :: i in invites && i in s.invites && s.invites[i].redeemedBy == Some(u)
    ensures |users| <= |invites|
    decreases |users|
  {
    if users != {} {
      var u :| u in users;
      var i :| i in invites && i in s.invites && s.invites[i].redeemedBy == Some(u);
      forall v | v in users - {u}
        ensures exists j :: j in invites - {i} && j in s.invites && s.invites[j].redeemedBy == Some(v)
      {
        var j :| j in invites && j in s.invites && s.invites[j].redeemedBy == Some(v);
        assert j in invites - {i};
      }
      EachHasItsOwnInvite(s, users - {u}, invites - {i});
    }
  }
}
