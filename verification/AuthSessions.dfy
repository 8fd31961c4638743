/** The refresh_token table against the log of what was issued and revoked. */
module AuthSessions {
  import opened Wrappers
  import opened Clock
  import opened Passwords
  import opened AuthModel
  import opened AuthRuns

  /** A refresh token as its user holds it. */
  datatype Ticket = Ticket(userId: string, hash: TokenHash, expires: int)

  function TicketOf(session: Session): Ticket {
    Ticket(session.userId, session.tokenHash, session.expiresAt)
  }

  predicate Matches(t: Ticket, userId: string, only: Option<TokenHash>, except: Option<TokenHash>) {
    t.userId == userId && (only.Some? ==> t.hash == only.value) && (except.Some? ==> t.hash != except.value)
  }

  /** The tickets issued and not revoked since, by replaying the log. */
  function Alive(log: seq<Event>): map<string, Ticket> {
    if log == [] then map[]
    else
      var before := Alive(log[..|log| - 1]);
      match log[|log| - 1]
      case Issued(id, userId, hash, expires) => before[id := Ticket(userId, hash, expires)]
      case RevokedOne(id) => map i | i in before && i != id :: before[i]
      case RevokedWhere(userId, only, except) =>
        map i | i in before && !Matches(before[i], userId, only, except) :: before[i]
  }

  lemma AliveAfter(log: seq<Event>, e: Event)
    ensures Alive(log + [e]) ==
      match e
      case Issued(id, userId, hash, expires) => Alive(log)[id := Ticket(userId, hash, expires)]
      case RevokedOne(id) => map i | i in Alive(log) && i != id :: Alive(log)[i]
      case RevokedWhere(userId, only, except) =>
        map i | i in Alive(log) && !Matches(Alive(log)[i], userId, only, except) :: Alive(log)[i]
  {
    assert (log + [e])[..|log|] == log;
  }

  /** The rows that are not revoked are exactly the tickets alive. */
  ghost predicate Refines(s: Sys) {
    forall id ::
      && (id in Alive(s.log) <==> id in s.sessions && s.sessions[id].revokedAt.None?)
      && (id in Alive(s.log) ==> Alive(s.log)[id] == TicketOf(s.sessions[id]))
  }

  lemma OpenRefines(s: Sys, uid: string, rememberMe: bool, id: string)
    requires Refines(s) && id !in s.sessions
    ensures Refines(OpenSession(s, uid, rememberMe, id))
  {
    var session := NewSession(uid, rememberMe, s.now);
    AliveAfter(s.log, Issued(id, uid, session.tokenHash, session.expiresAt));
  }

  lemma RevokeWhereRefines(s: Sys, uid: string, only: Option<TokenHash>, except: Option<TokenHash>)
    requires Refines(s)
    ensures Refines(RevokeWhere(s, uid, only, except))
  {
    AliveAfter(s.log, RevokedWhere(uid, only, except));
  }

  lemma RevokeOneRefines(s: Sys, uid: string, id: string)
    requires Refines(s)
    ensures Refines(DoRevokeSession(s, uid, id))
  {
    AliveAfter(s.log, RevokedOne(id));
  }

  lemma SameSessionsRefines(s: Sys, s': Sys)
    requires Refines(s) && s'.sessions == s.sessions && s'.log == s.log
    ensures Refines(s')
  {
  }

  lemma ResetRefines(s: Sys, token: string, password: string)
    requires Refines(s)
    ensures Refines(DoReset(s, token, password))
  {
    var u := ResetHolder(s, token);
    if u.Some? {
      var s' := s.(users := s.users[u.value := s.users[u.value].(passwordHash := Bcrypt(password), reset := None)],
                   resetCount := s.resetCount[u.value := CountOf(s.resetCount, u.value) + 1],
                     spent := s.spent + {token});
      SameSessionsRefines(s, s');
      RevokeWhereRefines(s', u.value, None, None);
    }
  }

  lemma ChangePasswordRefines(s: Sys, uid: string, current: string, password: string, keep: Option<TokenHash>)
    requires Refines(s)
    ensures Refines(DoChangePassword(s, uid, current, password, keep))
  {
    if uid in s.users {
      var s' := s.(users := s.users[uid := s.users[uid].(passwordHash := Bcrypt(password))]);
      SameSessionsRefines(s, s');
      RevokeWhereRefines(s', uid, None, keep);
    }
  }

  predicate LeavesSessions(step: Step) {
    || step.Tick? || step.Register? || step.ForgotPassword? || step.ActivateAccount? || step.ResendActivation?
    || step.SetMembership? || step.SoftDelete?
  }

  lemma SessionsFrame(s: Sys, step: Step)
    requires LeavesSessions(step)
    ensures Next(s, step).sessions == s.sessions && Next(s, step).log == s.log
    ensures s.now <= Next(s, step).now
  {
  }

  lemma NextRefines(s: Sys, step: Step)
    requires Refines(s)
    ensures Refines(Next(s, step))
  {
    match step
    case Login(uid, password, rememberMe, id) =>
      if DoLogin(s, uid, password, rememberMe, id) != s { OpenRefines(s, uid, rememberMe, id); }
    case IssueForMembership(uid, id) =>
      if DoIssue(s, uid, id) != s { OpenRefines(s, uid, false, id); }
    case Logout(uid, hash) => RevokeWhereRefines(s, uid, Some(hash), None);
    case LogoutAll(uid) => RevokeWhereRefines(s, uid, None, None);
    case ResetPassword(token, password) => ResetRefines(s, token, password);
    case ChangePassword(uid, current, password, keep) => ChangePasswordRefines(s, uid, current, password, keep);
    case RevokeSession(uid, id) => RevokeOneRefines(s, uid, id);
    case _ =>
      SessionsFrame(s, step);
      SameSessionsRefines(s, Next(s, step));
  }

  lemma {:induction false} RunRefines(s: Sys, steps: seq<Step>)
    requires Refines(s)
    ensures Refines(Run(s, steps))
    decreases |steps|
  {
    if steps != [] {
      NextRefines(s, steps[0]);
      RunRefines(Next(s, steps[0]), steps[1..]);
    }
  }

  /** On every run, listSessions returns exactly the user's tickets that were issued and neither
      revoked since nor expired. */
  lemma ListSessionsIsTheLiveSet(now: int, steps: seq<Step>, u: string)
    ensures var s := Run(Init(now), steps);
      ActiveSessions(s.sessions, u, s.now) ==
        set id | id in Alive(s.log) && Alive(s.log)[id].userId == u && Alive(s.log)[id].expires > s.now
  {
    RunRefines(Init(now), steps);
  }

  // ---- Whose rows an operation touches, and how. ----

  /** The user an operation acts for. */
  ghost function Subject(s: Sys, step: Step): Option<string> {
    match step
    case Login(uid, _, _, _) => Some(uid)
    case IssueForMembership(uid, _) => Some(uid)
    case Logout(uid, _) => Some(uid)
    case LogoutAll(uid) => Some(uid)
    case ResetPassword(token, _) => ResetHolder(s, token)
    case ChangePassword(uid, _, _, _) => Some(uid)
    case RevokeSession(uid, _) => Some(uid)
    case _ => None
  }

  /** A row that was there changes only by being revoked, once, for its own user, at the present time. */
  ghost predicate RowMovedRightly(s: Sys, step: Step, id: string)
    requires id in s.sessions
  {
    var s' := Next(s, step);
    && id in s'.sessions
    && (s'.sessions[id] == s.sessions[id]
        || (&& s.sessions[id].revokedAt.None?
            && Subject(s, step) == Some(s.sessions[id].userId)
            && s'.sessions[id] == s.sessions[id].(revokedAt := Some(s.now))))
  }

  lemma OperationsStayWithTheirUser(s: Sys, step: Step, id: string)
    requires id in s.sessions
    ensures RowMovedRightly(s, step, id)
  {
    match step
    case Login(uid, password, rememberMe, i) =>
      assert DoLogin(s, uid, password, rememberMe, i).sessions[id] == s.sessions[id];
    case IssueForMembership(uid, i) => assert DoIssue(s, uid, i).sessions[id] == s.sessions[id];
    case Logout(uid, hash) => RevokeMoves(s, uid, Some(hash), None, id);
    case LogoutAll(uid) => RevokeMoves(s, uid, None, None, id);
    case ResetPassword(token, password) => ResetMoves(s, token, password, id);
    case ChangePassword(uid, current, password, keep) => ChangeMoves(s, uid, current, password, keep, id);
    case RevokeSession(uid, i) =>
    case _ => SessionsFrame(s, step);
  }

  ghost predicate RevokedFor(s: Sys, s': Sys, uid: string, id: string)
    requires id in s.sessions
  {
    && id in s'.sessions
    && (s'.sessions[id] == s.sessions[id]
        || (&& s.sessions[id].revokedAt.None? && s.sessions[id].userId == uid
            && s'.sessions[id] == s.sessions[id].(revokedAt := Some(s.now))))
  }

  lemma RevokeMoves(s: Sys, uid: string, only: Option<TokenHash>, except: Option<TokenHash>, id: string)
    requires id in s.sessions
    ensures RevokedFor(s, RevokeWhere(s, uid, only, except), uid, id)
  {
  }

  lemma ResetMoves(s: Sys, token: string, password: string, id: string)
    requires id in s.sessions
    ensures ResetHolder(s, token).Some? ==> RevokedFor(s, DoReset(s, token, password), ResetHolder(s, token).value, id)
    ensures ResetHolder(s, token).None? ==> DoReset(s, token, password) == s
  {
  }

  lemma ChangeMoves(s: Sys, uid: string, current: string, password: string, keep: Option<TokenHash>, id: string)
    requires id in s.sessions
    ensures RevokedFor(s, DoChangePassword(s, uid, current, password, keep), uid, id)
  {
  }

  /** A revoked row stays revoked, with the date it was first given, in every later state. */
  lemma {:induction false} RevocationIsPermanent(s: Sys, steps: seq<Step>, id: string)
    requires id in s.sessions && s.sessions[id].revokedAt.Some?
    ensures id in Run(s, steps).sessions && Run(s, steps).sessions[id] == s.sessions[id]
    decreases |steps|
  {
    if steps != [] {
      OperationsStayWithTheirUser(s, steps[0], id);
      RevocationIsPermanent(Next(s, steps[0]), steps[1..], id);
    }
  }

  /** changePassword leaves unrevoked exactly those of the user's rows that carry the kept hash. */
  lemma ChangePasswordKeepsOnly(s: Sys, uid: string, current: string, password: string, keep: TokenHash)
    requires uid in s.users && MayChangePassword(s.users[uid], current, password)
    ensures Hits(Next(s, ChangePassword(uid, current, password, Some(keep))).sessions, uid, None, None)
         == Hits(s.sessions, uid, Some(keep), None)
  {
  }

  // ---- A refresh token as a string. ----

  ghost predicate Accepts(s: Sys, hash: TokenHash) {
    RefreshAccepted(s.users, s.sessions, hash, s.now)
  }

  /** No usable row carries the hash, and the second it was signed in is over. */
  ghost predicate Closed(s: Sys, hash: TokenHash) {
    && hash.OfRefresh? && hash.iat < Seconds(s.now)
    && forall id | id in s.sessions && s.sessions[id].tokenHash == hash && s.sessions[id].userId == hash.sub ::
         s.sessions[id].revokedAt.Some?
  }

  lemma NewHashesDiffer(s: Sys, step: Step, hash: TokenHash, id: string)
    requires Closed(s, hash) && id in Next(s, step).sessions && id !in s.sessions
    ensures Next(s, step).sessions[id].tokenHash != hash
  {
    match step
    case Login(uid, password, rememberMe, i) =>
    case IssueForMembership(uid, i) =>
    case Logout(_, _) =>
    case LogoutAll(_) =>
    case ResetPassword(_, _) =>
    case ChangePassword(_, _, _, _) =>
    case RevokeSession(_, _) =>
    case _ => SessionsFrame(s, step);
  }

  lemma ClosedStep(s: Sys, step: Step, hash: TokenHash)
    requires Closed(s, hash)
    ensures Closed(Next(s, step), hash)
  {
    var s' := Next(s, step);
    forall id | id in s'.sessions && s'.sessions[id].tokenHash == hash && s'.sessions[id].userId == hash.sub
      ensures s'.sessions[id].revokedAt.Some?
    {
      if id in s.sessions {
        OperationsStayWithTheirUser(s, step, id);
      } else {
        NewHashesDiffer(s, step, hash, id);
      }
    }
    TimeOnlyPasses(s, step);
  }

  lemma TimeOnlyPasses(s: Sys, step: Step)
    ensures s.now <= Next(s, step).now
  {
    if LeavesSessions(step) {
      SessionsFrame(s, step);
    }
  }

  lemma {:induction false} ClosedForever(s: Sys, steps: seq<Step>, hash: TokenHash)
    requires Closed(s, hash)
    ensures !Accepts(Run(s, steps), hash)
    decreases |steps|
  {
    if steps != [] {
      ClosedStep(s, steps[0], hash);
      ClosedForever(Next(s, steps[0]), steps[1..], hash);
    }
  }

  ghost predicate NeverAcceptedFrom(s: Sys, hash: TokenHash) {
    forall steps :: !Accepts(Run(s, steps), hash)
  }

  /** Logging out puts a refresh token out of use for good exactly when the second it was signed in
      is over: within that second, another login signs the very same token again. */
  lemma LogoutIsFinalExactlyWhen(s: Sys, u: string, password: string, rememberMe: bool, iat: int, id: string)
    requires u in s.users && MayLogin(s.users[u], password) && id !in s.sessions
    requires iat <= Seconds(s.now)
    ensures var hash := OfRefresh(u, iat, iat + RefreshLifetime(rememberMe) / 1000);
      NeverAcceptedFrom(Next(s, Logout(u, hash)), hash) <==> iat < Seconds(s.now)
  {
    var hash := OfRefresh(u, iat, iat + RefreshLifetime(rememberMe) / 1000);
    var out := Next(s, Logout(u, hash));
    if iat < Seconds(s.now) {
      assert Closed(out, hash);
      forall steps ensures !Accepts(Run(out, steps), hash) { ClosedForever(out, steps, hash); }
    } else {
      var login := [Login(u, password, rememberMe, id)];
      var again := Next(out, login[0]);
      assert again.sessions[id] == NewSession(u, rememberMe, s.now);
      assert Run(out, login) == again by { assert login[1..] == []; }
      assert Accepts(Run(out, login), hash);
    }
  }
}
