/**
 The records of the account control plane (astrata/accounts/models.py) and the one
 JSON document that holds them. Display names, labels, endpoints and bookkeeping
 timestamps are left out; nothing in the control plane branches on them.
 */
module AccountRecords {
  import opened Options
  import Text

  /** Every identifier: a uuid, a hex string or a URL-safe token in the source. */
  type Id = nat

  /** A bearer secret. SHA-256 is idealised as an injective constructor. */
  type Secret = nat
  datatype Hash = Sha256(of: Secret)

  /** A PKCE challenge: the S256 digest of some verifier, or any other text. */
  datatype Challenge = S256(verifier: string) | OtherText(text: string)

  /** A trimmed redirect URI with what the ChatGPT callback parser makes of it. */
  datatype Redirect = Redirect(text: string, callback: Option<(string, string)>)

  datatype User = User(email: string, eligible: bool)

  datatype InviteStatus = InviteOpen | InviteRedeemed
  datatype Invite = Invite(status: InviteStatus, redeemedBy: Option<Id>)

  datatype Profile = Profile(userId: Option<Id>, defaultDevice: Option<Id>)
  datatype Device = Device(userId: Id, active: bool)
  datatype Link = Link(userId: Id, profileId: Id, deviceId: Id, tokenHash: Hash, active: bool, updatedAt: int)
  datatype Client = Client(redirects: seq<Redirect>, active: bool)

  /** What a grant binds together: the payload shared by a code and its token. */
  datatype Grant = Grant(clientId: Id, userId: Id, profileId: Id, deviceId: Id, scope: seq<string>)

  datatype CodeStatus = CodeOpen | CodeRedeemed | CodeExpired
  datatype Code = Code(grant: Grant, redirect: Redirect, challenge: Option<Challenge>, expiresAt: int, status: CodeStatus)

  datatype TokenStatus = TokenActive | TokenExpired | TokenRevoked
  datatype Token = Token(grant: Grant, expiresAt: int, status: TokenStatus)

  /**
   The stored document. `profileOrder` is the insertion order of the profile table,
   which decides a user's default profile; device links are only ever scanned, so
   they are a sequence in insertion order.
   */
  datatype State = State(
    users: map<Id, User>,
    invites: map<Id, Invite>,
    profiles: map<Id, Profile>,
    profileOrder: seq<Id>,
    devices: map<Id, Device>,
    links: seq<Link>,
    clients: map<Id, Client>,
    codes: map<Id, Code>,
    tokens: map<Hash, Token>)

  const EmptyState := State(map[], map[], map[], [], map[], [], map[], map[], map[])

  datatype Status =
    | InvalidInvite | UnknownUser | HostedBridgeNotEnabled | MissingRelayProfile
    | UnknownDevice | UnknownProfile | InactiveDevice | OwnershipMismatch
    | UnknownClient | RedirectNotAllowed | UnsupportedChallengeMethod | ProfileNotOwned
    | NoActiveOwnedDeviceLink | InvalidGrant | ExpiredGrant | MissingVerifier
    | InvalidToken | DeadToken(was: TokenStatus) | ExpiredToken | NotFound

  datatype Reply<+T> = Ok(value: T) | Refused(status: Status)

  function NormalizeEmail(raw: string): string {
    Text.Lower(Text.Strip(raw))
  }

  /** `_oauth_redirect_uris_match`: the same text, or the same ChatGPT callback. */
  predicate RedirectsMatch(expected: Redirect, actual: Redirect) {
    expected.text == actual.text || (expected.callback.Some? && expected.callback == actual.callback)
  }

  /** `max(floor, int(ttl or fallback))`, in seconds. */
  function Lifetime(ttl: int, fallback: int, floor: int): int {
    var asked := if ttl == 0 then fallback else ttl;
    if asked < floor then floor else asked
  }
}
