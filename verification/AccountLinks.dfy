/**
 The link check of the account registry and the operations that make links, exactly, in
 terms of the stored records alone.
 */
module AccountLinks {
  import opened Options
  import opened AccountRecords
  import opened AccountOperations
  import opened AccountInvariant

  // ---------- the link check ----------

  /**
   An active link that joins the profile to an active device of the profile's owner: to the asked device, if one
   is asked, and made with the presented secret, if one is presented.
   */
  ghost predicate Authorizes(s: State, link: Link, p: Id, device: Option<Id>, secret: Option<Secret>) {
    && link.active && link.profileId == p
    && p in s.profiles && link.deviceId in s.devices && s.devices[link.deviceId].active
    && s.profiles[p].userId == Some(s.devices[link.deviceId].userId)
    && (device == None || device == Some(link.deviceId))
    && (secret.Some? ==> link.tokenHash == Sha256(secret.value))
  }

  /** No link that would do as well is more recent, or as recent and stored earlier. */
  ghost predicate LatestAt(s: State, i: nat, p: Id, device: Option<Id>, secret: Option<Secret>) {
    && i < |s.links| && Authorizes(s, s.links[i], p, device, secret)
    && forall j | 0 <= j < |s.links| && Authorizes(s, s.links[j], p, device, secret) ::
         s.links[j].updatedAt < s.links[i].updatedAt || (s.links[j].updatedAt == s.links[i].updatedAt && i <= j)
  }

  /** The check answers `ok` exactly when some stored link authorizes what is asked, and names the device of the latest. */
  lemma VerifyExactly(s: State, p: Id, device: Option<Id>, secret: Option<Secret>)
    ensures var r := VerifyDeviceLink(s, p, device, secret);
      && (r.Ok? <==> exists link :: link in s.links && Authorizes(s, link, p, device, secret))
      && (r.Ok? ==> exists i: nat :: LatestAt(s, i, p, device, secret) && s.links[i].deviceId == r.value)
      && (r.Refused? ==> r.status == if p in s.profiles then NoActiveOwnedDeviceLink else UnknownProfile)
  {
    var best := BestLink(s, p, device, secret, |s.links|);
    BestLinkIsBest(s, p, device, secret, |s.links|);
    forall i: nat | i < |s.links| ensures Usable(s, i, p, device, secret) <==> Authorizes(s, s.links[i], p, device, secret) {
    }
    if best.Some? && p in s.profiles {
      assert s.links[best.value] in s.links && LatestAt(s, best.value, p, device, secret);
    }
  }

  /** A secret is accepted only if it made an active link of this very profile. */
  lemma OnlyItsSecrets(s: State, p: Id, device: Option<Id>, secret: Secret)
    requires VerifyDeviceLink(s, p, device, Some(secret)).Ok?
    ensures exists link :: link in s.links && link.active && link.profileId == p && link.tokenHash == Sha256(secret)
  {
    VerifyExactly(s, p, device, Some(secret));
  }

  /** The step makes a link with this secret. */
  predicate Makes(e: Event, secret: Secret) {
    e.op.Account? &&
    match e.op.account
    case LinkOp(_, _, token) => token == secret
    case PairOp(_, _, token) => token == secret
    case RegisterDesktopOp(_, _, _, _, _, token) => token == secret
    case _ => false
  }

  /** Every secret hash of a link in `t` was in `s`, or belongs to a secret that the step made a link with. */
  ghost predicate HashesFrom(s: State, t: State, e: Event) {
    forall link | link in t.links ::
      (exists past :: past in s.links && past.tokenHash == link.tokenHash) || Makes(e, link.tokenHash.of)
  }

  lemma LinkHashes(s: State, d: Id, p: Id, token: Secret, now: int, e: Event)
    requires Makes(e, token)
    ensures HashesFrom(s, LinkDevice(s, d, p, token, now).0, e)
  {
  }

  lemma PairHashes(s: State, email: string, d: Id, token: Secret, now: int, e: Event)
    requires Makes(e, token)
    ensures HashesFrom(s, PairDevice(s, email, d, token, now).0, e)
  {
    var user := UserByEmail(s.users, NormalizeEmail(email));
    if user.Some? && DefaultProfile(s, user.value).Some? {
      LinkHashes(RegisterDevice(s, "", user, d).0, d, DefaultProfile(s, user.value).value, token, now, e);
    }
  }

  lemma OffHashes(s: State, off: SwitchOff, e: Event)
    ensures HashesFrom(s, ApplyOff(s, off), e)
  {
    var t := ApplyOff(s, off);
    forall i | 0 <= i < |t.links| ensures s.links[i] in s.links && s.links[i].tokenHash == t.links[i].tokenHash {
    }
  }

  lemma OAuthHashes(s: State, op: OAuthOp, now: int, e: Event)
    ensures HashesFrom(s, ApplyOAuth(s, op, now), e)
  {
    match op
    case IssueCodeOp(req, c) => IssueCodeWrites(s, req, c, now);
    case ExchangeOp(req, k) => ExchangeWrites(s, req, k, now);
    case ResolveOp(k) => ResolveWrites(s, k, now);
    case RevokeOp(k) =>
  }

  lemma StepHashes(s: State, e: Event)
    ensures HashesFrom(s, Apply(s, e), e)
  {
    match e.op
    case OAuth(op) => OAuthHashes(s, op, e.now, e);
    case Environment(off) => OffHashes(s, off, e);
    case Account(op) =>
      match op
      case LinkOp(d, p, token) => LinkHashes(s, d, p, token, e.now, e);
      case PairOp(email, d, token) => PairHashes(s, email, d, token, e.now, e);
      case RegisterDesktopOp(email, asked, u, p, d, token) =>
        var known := UserByEmail(s.users, NormalizeEmail(email));
        LinkHashes(BeforeDesktopLink(s, email, asked, u, p, d), d,
                   DesktopProfile(s, if known.Some? then known.value else u, asked, p).0, token, e.now, e);
      case _ =>
  }

  lemma {:induction false} RunHashes(s: State, es: seq<Event>, link: Link)
    requires link in RunEnd(s, es).links
    ensures (exists past :: past in s.links && past.tokenHash == link.tokenHash)
      || exists i :: 0 <= i < |es| && Makes(es[i], link.tokenHash.of)
    decreases |es|
  {
    if es != [] {
      var t := Apply(s, es[0]);
      RunHashes(t, es[1..], link);
      StepHashes(s, es[0]);
      if i :| 0 <= i < |es[1..]| && Makes(es[1..][i], link.tokenHash.of) {
        assert Makes(es[i + 1], link.tokenHash.of);
      } else {
        var past :| past in t.links && past.tokenHash == link.tokenHash;
        assert Makes(es[0], link.tokenHash.of) || exists older :: older in s.links && older.tokenHash == link.tokenHash;
      }
    }
  }

  /** After any run, no check accepts a secret that no operation of the run made a link with. */
  lemma OnlyMadeSecretsAccepted(es: seq<Event>, p: Id, device: Option<Id>, secret: Secret)
    requires VerifyDeviceLink(RunEnd(EmptyState, es), p, device, Some(secret)).Ok?
    ensures exists i :: 0 <= i < |es| && Makes(es[i], secret)
  {
    OnlyItsSecrets(RunEnd(EmptyState, es), p, device, secret);
    var link :| link in RunEnd(EmptyState, es).links && link.tokenHash == Sha256(secret);
    RunHashes(EmptyState, es, link);
  }

  // ---------- linking and pairing ----------

  /** A link is refused exactly when device or profile is unknown, the device is off, or they have different owners. */
  lemma LinkExactly(s: State, d: Id, p: Id, secret: Secret, now: int)
    ensures var (t, r) := LinkDevice(s, d, p, secret, now);
      && (r.Ok? <==> d in s.devices && p in s.profiles && s.devices[d].active && s.profiles[p].userId == Some(s.devices[d].userId))
      && (r.Ok? ==>
            && r.value == Link(s.devices[d].userId, p, d, Sha256(secret), true, now)
            && t == s.(links := s.links + [r.value],
                       profiles := s.profiles[p := Profile(s.profiles[p].userId, Some(d))]))
      && (r.Refused? ==> t == s)
      && (r == Refused(UnknownDevice) <==> d !in s.devices)
      && (r == Refused(UnknownProfile) <==> d in s.devices && p !in s.profiles)
      && (r == Refused(InactiveDevice) <==> d in s.devices && p in s.profiles && !s.devices[d].active)
  {
  }

  /** After a pairing its device is accepted with the secret of that pairing and with no other. */
  lemma PairedSecretExactly(s: State, email: string, d: Id, secret: Secret, now: int, presented: Secret)
    requires Inv(s) && d !in s.devices && PairDevice(s, email, d, secret, now).1.Ok?
    ensures var (t, r) := PairDevice(s, email, d, secret, now);
      VerifyDeviceLink(t, r.value.profileId, Some(d), Some(presented)) ==
        if presented == secret then Ok(d) else Refused(NoActiveOwnedDeviceLink)
  {
    var (t, r) := PairDevice(s, email, d, secret, now);
    var user := UserByEmail(s.users, NormalizeEmail(email));
    var s1 := s.(devices := s.devices[d := Device(user.value, true)]);
    LinkExactly(s1, d, DefaultProfile(s, user.value).value, secret, now);
    VerifyExactly(t, r.value.profileId, Some(d), Some(presented));
    forall link | link in s.links ensures link.deviceId != d {
    }
    assert t.links[|s.links|] == r.value;
  }
}
