/** The user and refresh_token tables behind auth.service.ts and the updates its methods send. */
module AuthModel {
  import opened Wrappers
  import opened Clock
  import opened Passwords

  /** The stored SHA-256 of a token. A refresh JWT carries nothing but sub, iat and exp, in whole
      seconds, so two tokens signed alike in one second are the same token. */
  datatype TokenHash = OfRefresh(sub: string, iat: int, exp: int) | OfOther(text: string)

  /** `activation` and `reset` are the pair (token, expiry), which the code always writes together. */
  datatype Secret = Secret(token: string, expires: int)

  datatype User = User(
    email: string,
    passwordHash: PasswordHash,
    isActive: bool,
    emailVerified: bool,
    isPlatformAdmin: bool,
    hasMembership: bool,
    activation: Option<Secret>,
    reset: Option<Secret>,
    deleted: bool)

  type Users = map<string, User>

  datatype Session = Session(userId: string, tokenHash: TokenHash, expiresAt: int, revokedAt: Option<int>)

  type Sessions = map<string, Session>

  const HOUR: int := 60 * 60 * 1000
  const ACTIVATION_LIFETIME: int := 24 * HOUR
  const RESET_LIFETIME: int := HOUR
  const WEEK: int := 7 * 24 * HOUR
  const MONTH: int := 30 * 24 * HOUR

  function RefreshLifetime(rememberMe: bool): int {
    if rememberMe then MONTH else WEEK
  }

  /** The hash of the refresh token signed now. */
  function SignedNow(userId: string, rememberMe: bool, now: int): TokenHash {
    OfRefresh(userId, Seconds(now), Seconds(now) + RefreshLifetime(rememberMe) / 1000)
  }

  function NewSession(userId: string, rememberMe: bool, now: int): Session {
    Session(userId, SignedNow(userId, rememberMe, now), now + RefreshLifetime(rememberMe), None)
  }

  function NewUser(email: string, password: string, token: string, now: int): User {
    User(email, Bcrypt(password), false, false, false, true, Some(Secret(token, now + ACTIVATION_LIFETIME)), None,
      false)
  }

  predicate MayLogin(user: User, password: string) {
    && !user.deleted && user.passwordHash == Bcrypt(password) && user.isActive && user.emailVerified
    && (user.hasMembership || user.isPlatformAdmin)
  }

  predicate MayChangePassword(user: User, current: string, next: string) {
    !user.deleted && user.passwordHash == Bcrypt(current) && user.passwordHash != Bcrypt(next)
  }

  /** The row is one of the user's, not revoked, and its hash passes the filter. */
  predicate Hit(session: Session, userId: string, only: Option<TokenHash>, except: Option<TokenHash>) {
    && session.userId == userId && session.revokedAt.None?
    && (only.Some? ==> session.tokenHash == only.value)
    && (except.Some? ==> session.tokenHash != except.value)
  }

  function Hits(sessions: Sessions, userId: string, only: Option<TokenHash>, except: Option<TokenHash>): set<string> {
    set id | id in sessions && Hit(sessions[id], userId, only, except)
  }

  /** refresh_token.updateMany, setting revoked_at on the rows that match. */
  function Revoke(sessions: Sessions, ids: set<string>, now: int): Sessions {
    map id | id in sessions :: if id in ids then sessions[id].(revokedAt := Some(now)) else sessions[id]
  }

  /** The rows listSessions returns. */
  function ActiveSessions(sessions: Sessions, userId: string, now: int): set<string> {
    set id | id in sessions && sessions[id].userId == userId && sessions[id].revokedAt.None?
      && sessions[id].expiresAt > now
  }

  predicate HoldsReset(user: User, token: string, now: int) {
    !user.deleted && user.reset.Some? && user.reset.value.token == token && user.reset.value.expires > now
  }

  predicate HoldsActivation(user: User, token: string, now: int) {
    !user.deleted && user.activation.Some? && user.activation.value.token == token
      && user.activation.value.expires > now
  }

  /** The refresh JWT behind `hash` is accepted by the refresh strategy. */
  ghost predicate RefreshAccepted(users: Users, sessions: Sessions, hash: TokenHash, now: int) {
    && hash.OfRefresh? && Seconds(now) < hash.exp
    && hash.sub in users && users[hash.sub].isActive && !users[hash.sub].deleted
    && exists id :: id in sessions && sessions[id].userId == hash.sub && sessions[id].tokenHash == hash
         && sessions[id].revokedAt.None? && sessions[id].expiresAt > now
  }
}
