/**
 Invites, devices and desktops: exactly which sign-ups are refused, and what is stored
 for the others.
 */
module AccountSignUp {
  import opened Options
  import opened AccountRecords
  import opened AccountOperations
  import opened AccountInvariant
  import opened AccountLinks
  import opened AccountCodes
  import AccountFlow
  import Text

  function Address(email: string): string {
    Text.Lower(Text.Strip(email))
  }

  /** The user of the address, in any spelling, or a new one where nobody has it. */
  ghost predicate Holder(s: State, email: string, newUser: Id, u: Id) {
    if exists v :: v in s.users && s.users[v].email == Address(email) then u in s.users && s.users[u].email == Address(email)
    else u == newUser
  }

  /**
   An invite is redeemed exactly while it is open: its holder becomes eligible and gets a profile if they have
   none; nobody else's records change.
   */
  lemma RedeemExactly(s: State, email: string, i: Id, newUser: Id, newProfile: Id)
    ensures var (t, r) := RedeemInvite(s, email, i, newUser, newProfile);
      && (r.Ok? <==> i in s.invites && s.invites[i].status == InviteOpen)
      && (r.Refused? ==> t == s && r.status == InvalidInvite)
      && (r.Ok? ==>
            && Holder(s, email, newUser, r.value)
            && t.users == s.users[r.value := User(Address(email), true)]
            && t.invites == s.invites[i := Invite(InviteRedeemed, Some(r.value))]
            && t.devices == s.devices && t.links == s.links && t.clients == s.clients && t.codes == s.codes && t.tokens == s.tokens)
      && (r.Ok? && (exists p :: p in s.profileOrder && OwnsProfile(s, r.value, p)) ==>
            t.profiles == s.profiles && t.profileOrder == s.profileOrder)
      && (r.Ok? && (forall p | p in s.profileOrder :: !OwnsProfile(s, r.value, p)) ==>
            t.profiles == s.profiles[newProfile := Profile(Some(r.value), None)] && t.profileOrder == s.profileOrder + [newProfile])
  {
    HolderFound(s, email, newUser);
    var known := UserByEmail(s.users, NormalizeEmail(email));
    var u := if known.Some? then known.value else newUser;
    assert DefaultProfile(s, u).Some? <==> exists p :: p in s.profileOrder && OwnsProfile(s, u, p) by {
      FirstProfileOf(s, u);
    }
  }

  lemma HolderFound(s: State, email: string, newUser: Id)
    ensures var known := UserByEmail(s.users, NormalizeEmail(email));
      Holder(s, email, newUser, if known.Some? then known.value else newUser)
  {
  }

  lemma FirstProfileOf(s: State, u: Id)
    ensures DefaultProfile(s, u).Some? <==> exists p :: p in s.profileOrder && OwnsProfile(s, u, p)
  {
    forall p: Id ensures Owned(s.profiles, p, u) <==> OwnsProfile(s, u, p) {
    }
  }

  /** A device is registered exactly for an eligible user that the request names. */
  lemma RegisterExactly(s: State, email: string, userId: Option<Id>, d: Id)
    requires EmailsUnique(s.users)
    ensures var (t, r) := RegisterDevice(s, email, userId, d);
      && (r.Ok? <==> exists u :: Names(s, email, userId, u) && s.users[u].eligible)
      && (r.Ok? ==> r.value == d && exists u :: Names(s, email, userId, u) && t == s.(devices := s.devices[d := Device(u, true)]))
      && (r.Refused? ==> t == s)
      && (r == Refused(UnknownUser) <==> forall u :: !Names(s, email, userId, u))
      && (r == Refused(HostedBridgeNotEnabled) <==> exists u :: Names(s, email, userId, u) && !s.users[u].eligible)
  {
    forall u: Id ensures ResolveUser(s, email, userId) == Some(u) <==> Names(s, email, userId, u) {
      NamedExactly(s, email, userId, u);
    }
  }

  /** Which check a refused pairing fails first. */
  lemma PairRefusedExactly(s: State, email: string, d: Id, secret: Secret, now: int)
    requires Inv(s) && d !in s.devices
    ensures var (t, r) := PairDevice(s, email, d, secret, now);
      && (r.Refused? ==> t == s)
      && (r == Refused(UnknownUser) <==> forall u | u in s.users :: s.users[u].email != Address(email))
      && (r == Refused(MissingRelayProfile) <==>
            exists u :: u in s.users && s.users[u].email == Address(email) && forall p :: !DefaultOf(s, u, p))
      && (r == Refused(HostedBridgeNotEnabled) <==>
            exists u, p :: u in s.users && s.users[u].email == Address(email) && DefaultOf(s, u, p) && !s.users[u].eligible)
      && (r.Ok? ==> exists u :: u in s.users && s.users[u].email == Address(email) && DefaultOf(s, u, r.value.profileId)
                                && r.value == Link(u, r.value.profileId, d, Sha256(secret), true, now))
  {
    var user := UserByEmail(s.users, NormalizeEmail(email));
    if user.Some? {
      forall p: Id ensures DefaultProfile(s, user.value) == Some(p) <==> DefaultOf(s, user.value, p) {
        DefaultExactly(s, user.value, p);
      }
      if DefaultProfile(s, user.value).Some? {
        LinkExactly(s.(devices := s.devices[d := Device(user.value, true)]), d, DefaultProfile(s, user.value).value, secret, now);
      }
    }
  }

  // ---------- desktops ----------

  /** The profile that a desktop of this user settles on: the asked one, or else their first one, or else a new one. */
  ghost predicate SettlesOn(s: State, u: Id, asked: Option<Id>, newProfile: Id, p: Id) {
    if asked.Some? then p == asked.value
    else if exists q :: DefaultOf(s, u, q) then DefaultOf(s, u, p)
    else p == newProfile
  }

  /**
   A desktop registration is refused exactly when the asked profile belongs to somebody else. Otherwise the
   desktop is linked, as default device, to the profile of its user, who may be new and is not made eligible.
   Its device is stored in any case.
   */
  lemma DesktopExactly(s: State, email: string, asked: Option<Id>, newUser: Id, newProfile: Id, d: Id, secret: Secret, now: int)
    requires newUser !in s.users && newProfile !in s.profiles
    ensures var (t, r) := RegisterDesktop(s, email, asked, newUser, newProfile, d, secret, now);
      exists u :: Holder(s, email, newUser, u) && DesktopStored(s, t, r, u, email, asked, newProfile, d, secret, now)
  {
    var known := UserByEmail(s.users, NormalizeEmail(email));
    var u := if known.Some? then known.value else newUser;
    var p := DesktopProfile(s, u, asked, newProfile).0;
    HolderFound(s, email, newUser);
    DesktopSettles(s, u, asked, newProfile);
    LinkExactly(BeforeDesktopLink(s, email, asked, newUser, newProfile, d), d, p, secret, now);
    var (t, r) := RegisterDesktop(s, email, asked, newUser, newProfile, d, secret, now);
    assert DesktopStored(s, t, r, u, email, asked, newProfile, d, secret, now);
  }

  /** What a desktop registration leaves stored for this user, and when it is refused. */
  ghost predicate DesktopStored(s: State, t: State, r: Reply<Link>, u: Id, email: string, asked: Option<Id>, newProfile: Id,
                                d: Id, secret: Secret, now: int)
  {
    && t.users == (if u in s.users then s.users else s.users[u := User(Address(email), false)])
    && t.devices == s.devices[d := Device(u, true)]
    && (r.Refused? <==> SomebodyElses(s, u, asked))
    && (r.Refused? ==> r.status == OwnershipMismatch && t.links == s.links && t.profiles == s.profiles)
    && (r.Ok? ==>
          && r.value == Link(u, r.value.profileId, d, Sha256(secret), true, now)
          && SettlesOn(s, u, asked, newProfile, r.value.profileId)
          && t.links == s.links + [r.value]
          && t.profiles == s.profiles[r.value.profileId := Profile(Some(u), Some(d))])
  }

  ghost predicate SomebodyElses(s: State, u: Id, asked: Option<Id>) {
    && asked.Some? && asked.value in s.profiles && s.profiles[asked.value].userId.Some?
    && s.profiles[asked.value].userId.value != u
  }

  lemma DesktopSettles(s: State, u: Id, asked: Option<Id>, newProfile: Id)
    requires newProfile !in s.profiles
    ensures var (p, profile) := DesktopProfile(s, u, asked, newProfile);
      && SettlesOn(s, u, asked, newProfile, p)
      && (profile.userId == Some(u) <==> !SomebodyElses(s, u, asked))
      && (SomebodyElses(s, u, asked) ==> p in s.profiles && profile == s.profiles[p])
  {
    forall p: Id ensures DefaultProfile(s, u) == Some(p) <==> DefaultOf(s, u, p) {
      DefaultExactly(s, u, p);
    }
  }

  // ---------- invites over runs ----------

  ghost predicate Redeems(e: Event, i: Id) {
    e.op.Account? && e.op.account.RedeemOp? && e.op.account.invite == i
  }

  lemma InviteKept(s: State, e: Event, i: Id)
    requires Fresh(s, e.op) && i in s.invites && !Redeems(e, i)
    ensures i in Apply(s, e).invites && Apply(s, e).invites[i] == s.invites[i]
  {
    match e.op
    case OAuth(op) => AccountFlow.OAuthKeepsAccounts(s, op, e.now);
    case Environment(off) => OffKeepsInvites(s, off);
    case Account(op) => AccountKeepsInvite(s, op, e.now, i);
  }

  lemma OffKeepsInvites(s: State, off: SwitchOff)
    ensures ApplyOff(s, off).invites == s.invites
  {
  }

  lemma AccountKeepsInvite(s: State, op: AccountOp, now: int, i: Id)
    requires FreshAccount(s, op) && i in s.invites && !(op.RedeemOp? && op.invite == i)
    ensures i in ApplyAccount(s, op, now).invites && ApplyAccount(s, op, now).invites[i] == s.invites[i]
  {
    match op
    case PairOp(email, d, k) => AccountFlow.PairWrites(s, email, d, k, now);
    case RegisterDesktopOp(email, asked, u, p, d, k) => AccountFlow.DesktopWrites(s, email, asked, u, p, d, k, now);
    case LinkOp(d, p, k) => LinkWrites(s, d, p, k, now);
    case RedeemOp(email, j, u, p) => RedeemExactly(s, email, j, u, p);
    case _ =>
  }

  /** An invite once issued stays open until it is redeemed, whatever else happens, and no longer. */
  lemma {:induction false} InviteOpenUntilRedeemed(s: State, es: seq<Event>, clock: int, i: Id)
    requires ValidRun(s, es, clock) && i in s.invites && s.invites[i].status == InviteOpen
    ensures i in RunEnd(s, es).invites
    ensures RunEnd(s, es).invites[i].status == InviteOpen <==> forall k | 0 <= k < |es| :: !Redeems(es[k], i)
    decreases |es|
  {
    if es != [] {
      var t := Apply(s, es[0]);
      if Redeems(es[0], i) {
        RedeemExactly(s, es[0].op.account.email, i, es[0].op.account.newUser, es[0].op.account.newProfile);
        SpentInviteStaysSpent(t, es[1..], es[0].now, i);
      } else {
        InviteKept(s, es[0], i);
        InviteOpenUntilRedeemed(t, es[1..], es[0].now, i);
        forall k | 0 <= k < |es| ensures Redeems(es[k], i) <==> k > 0 && Redeems(es[1..][k - 1], i) {
        }
      }
    }
  }

  lemma {:induction false} SpentInviteStaysSpent(s: State, es: seq<Event>, clock: int, i: Id)
    requires ValidRun(s, es, clock) && i in s.invites && s.invites[i].status == InviteRedeemed
    ensures i in RunEnd(s, es).invites && RunEnd(s, es).invites[i] == s.invites[i]
    decreases |es|
  {
    if es != [] {
      if Redeems(es[0], i) {
        RedeemExactly(s, es[0].op.account.email, i, es[0].op.account.newUser, es[0].op.account.newProfile);
      } else {
        InviteKept(s, es[0], i);
      }
      SpentInviteStaysSpent(Apply(s, es[0]), es[1..], es[0].now, i);
    }
  }

  /** An issued invite is open, so that the next redemption of it, after any run without one, succeeds. */
  lemma IssuedInviteRedeems(s: State, i: Id, es: seq<Event>, clock: int, email: string, newUser: Id, newProfile: Id)
    requires var t := ApplyAccount(s, IssueInviteOp(i), 0);
      ValidRun(t, es, clock) && forall k | 0 <= k < |es| :: !Redeems(es[k], i)
    ensures RedeemInvite(RunEnd(ApplyAccount(s, IssueInviteOp(i), 0), es), email, i, newUser, newProfile).1.Ok?
  {
    InviteOpenUntilRedeemed(ApplyAccount(s, IssueInviteOp(i), 0), es, clock, i);
  }

  // ---------- clients ----------

  /** A registered client is active, with exactly the redirects that are not blank. */
  lemma {:induction false} NonBlankExactly(redirects: seq<Redirect>)
    ensures forall r :: r in NonBlank(redirects) <==> r in redirects && r.text != ""
  {
    if redirects != [] {
      NonBlankExactly(redirects[..|redirects| - 1]);
    }
  }

  lemma ClientRegistered(s: State, redirects: seq<Redirect>, c: Id, redirect: Redirect)
    ensures var t := ApplyAccount(s, RegisterClientOp(redirects, c), 0);
      && ClientActive(t, c) && t == s.(clients := t.clients) && t.clients == s.clients[c := t.clients[c]]
      && (RedirectRegistered(t.clients[c], redirect) <==>
            || (forall r | r in redirects :: r.text == "")
            || (exists r :: r in redirects && r.text != ""
                            && (r.text == redirect.text || (r.callback.Some? && r.callback == redirect.callback))))
  {
    NonBlankExactly(redirects);
    var kept := NonBlank(redirects);
    assert kept != [] ==> kept[0] in kept;
  }
}
