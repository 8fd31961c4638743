/** Whole runs of auth.service.ts, each operation atomic, with the history the claims are about. */
module AuthRuns {
  import opened Wrappers
  import opened Passwords
  import opened AuthModel

  /** A secret handed out at some time. */
  datatype Issue = Issue(token: string, at: int)

  /** What happened to refresh tokens, in order. */
  datatype Event =
    | Issued(id: string, userId: string, hash: TokenHash, expires: int)
    | RevokedOne(id: string)
    | RevokedWhere(userId: string, only: Option<TokenHash>, except: Option<TokenHash>)

  /** `drawn` maps every random token to the user it was drawn for. The other fields are history. */
  datatype Sys = Sys(
    users: Users,
    sessions: Sessions,
    now: int,
    drawn: map<string, string>,
    activations: map<string, seq<Issue>>,
    resets: map<string, seq<Issue>>,
    resetCount: map<string, nat>,
    spent: set<string>,              // reset tokens that were used
    log: seq<Event>)

  datatype Step =
    | Tick(elapsed: nat)
    | Register(uid: string, email: string, password: string, token: string)
    | Login(uid: string, password: string, rememberMe: bool, id: string)
    | IssueForMembership(uid: string, id: string)
    | Logout(uid: string, hash: TokenHash)
    | LogoutAll(uid: string)
    | ForgotPassword(uid: string, token: string)
    | ResetPassword(token: string, password: string)
    | ActivateAccount(token: string)
    | ResendActivation(uid: string, token: string)
    | ChangePassword(uid: string, current: string, password: string, keep: Option<TokenHash>)
    | RevokeSession(uid: string, id: string)
    | SetMembership(uid: string, active: bool)   // done by other services
    | SoftDelete(uid: string)

  function Init(now: int): Sys {
    Sys(map[], map[], now, map[], map[], map[], map[], {}, [])
  }

  /** findFirst on a token: the user holding it, if any. */
  ghost function ResetHolder(s: Sys, token: string): Option<string> {
    if u :| u in s.users && HoldsReset(s.users[u], token, s.now) then Some(u) else None
  }

  ghost function ActivationHolder(s: Sys, token: string): Option<string> {
    if u :| u in s.users && HoldsActivation(s.users[u], token, s.now) then Some(u) else None
  }

  function OpenSession(s: Sys, uid: string, rememberMe: bool, id: string): Sys {
    var session := NewSession(uid, rememberMe, s.now);
    s.(sessions := s.sessions[id := session], log := s.log + [Issued(id, uid, session.tokenHash, session.expiresAt)])
  }

  function RevokeWhere(s: Sys, uid: string, only: Option<TokenHash>, except: Option<TokenHash>): Sys {
    s.(sessions := Revoke(s.sessions, Hits(s.sessions, uid, only, except), s.now),
       log := s.log + [RevokedWhere(uid, only, except)])
  }

  function IssuesOf(m: map<string, seq<Issue>>, uid: string): seq<Issue> {
    if uid in m then m[uid] else []
  }

  function CountOf(m: map<string, nat>, uid: string): nat {
    if uid in m then m[uid] else 0
  }

  function GiveActivation(s: Sys, uid: string, user: User, token: string): Sys {
    s.(users := s.users[uid := user], drawn := s.drawn[token := uid],
       activations := s.activations[uid := IssuesOf(s.activations, uid) + [Issue(token, s.now)]])
  }

  /** What resetPassword does to the user it found. */
  function ApplyReset(s: Sys, u: string, token: string, password: string): Sys
    requires u in s.users
  {
    var s' := s.(users := s.users[u := s.users[u].(passwordHash := Bcrypt(password), reset := None)],
                 resetCount := s.resetCount[u := CountOf(s.resetCount, u) + 1], spent := s.spent + {token});
    RevokeWhere(s', u, None, None)
  }

  function WithActivation(user: User, token: string, now: int): User {
    user.(activation := Some(Secret(token, now + ACTIVATION_LIFETIME)))
  }

  function WithReset(user: User, token: string, now: int): User {
    user.(reset := Some(Secret(token, now + RESET_LIFETIME)))
  }

  /** The user an activation found. */
  function ActivatedUser(user: User): User {
    user.(isActive := true, emailVerified := true, activation := None)
  }

  // ---- The operations. A refused operation leaves the state alone. ----

  ghost function DoRegister(s: Sys, uid: string, email: string, password: string, token: string): Sys {
    if uid in s.users || token in s.drawn || exists u :: u in s.users && s.users[u].email == email then s
    else GiveActivation(s, uid, NewUser(email, password, token, s.now), token)
  }

  function DoLogin(s: Sys, uid: string, password: string, rememberMe: bool, id: string): Sys {
    if uid !in s.users || id in s.sessions || !MayLogin(s.users[uid], password) then s
    else OpenSession(s, uid, rememberMe, id)
  }

  function DoIssue(s: Sys, uid: string, id: string): Sys {
    if uid !in s.users || id in s.sessions then s else OpenSession(s, uid, false, id)
  }

  function DoForgot(s: Sys, uid: string, token: string): Sys {
    if uid !in s.users || token in s.drawn || !s.users[uid].isActive || s.users[uid].deleted then s
    else
      s.(users := s.users[uid := WithReset(s.users[uid], token, s.now)],
         drawn := s.drawn[token := uid],
         resets := s.resets[uid := IssuesOf(s.resets, uid) + [Issue(token, s.now)]])
  }

  ghost function DoReset(s: Sys, token: string, password: string): Sys {
    var u := ResetHolder(s, token);
    if u.None? then s else ApplyReset(s, u.value, token, password)
  }

  ghost function DoActivate(s: Sys, token: string): Sys {
    var u := ActivationHolder(s, token);
    if u.None? || (s.users[u.value].isActive && s.users[u.value].emailVerified) then s
    else s.(users := s.users[u.value := ActivatedUser(s.users[u.value])])
  }

  function DoResend(s: Sys, uid: string, token: string): Sys {
    if uid !in s.users || token in s.drawn then s
    else if s.users[uid].isActive || s.users[uid].emailVerified || s.users[uid].deleted then s
    else GiveActivation(s, uid, WithActivation(s.users[uid], token, s.now), token)
  }

  function DoChangePassword(s: Sys, uid: string, current: string, password: string, keep: Option<TokenHash>): Sys {
    if uid !in s.users || !MayChangePassword(s.users[uid], current, password) then s
    else RevokeWhere(s.(users := s.users[uid := s.users[uid].(passwordHash := Bcrypt(password))]), uid, None, keep)
  }

  function DoRevokeSession(s: Sys, uid: string, id: string): Sys {
    if id !in s.sessions || !Hit(s.sessions[id], uid, None, None) then s
    else s.(sessions := Revoke(s.sessions, {id}, s.now), log := s.log + [RevokedOne(id)])
  }

  function DoSetMembership(s: Sys, uid: string, active: bool): Sys {
    if uid in s.users then s.(users := s.users[uid := s.users[uid].(hasMembership := active)]) else s
  }

  function DoSoftDelete(s: Sys, uid: string): Sys {
    if uid in s.users then s.(users := s.users[uid := s.users[uid].(deleted := true)]) else s
  }

  ghost function Next(s: Sys, step: Step): Sys {
    match step
    case Tick(elapsed) => s.(now := s.now + elapsed)
    case Register(uid, email, password, token) => DoRegister(s, uid, email, password, token)
    case Login(uid, password, rememberMe, id) => DoLogin(s, uid, password, rememberMe, id)
    case IssueForMembership(uid, id) => DoIssue(s, uid, id)
    case Logout(uid, hash) => RevokeWhere(s, uid, Some(hash), None)
    case LogoutAll(uid) => RevokeWhere(s, uid, None, None)
    case ForgotPassword(uid, token) => DoForgot(s, uid, token)
    case ResetPassword(token, password) => DoReset(s, token, password)
    case ActivateAccount(token) => DoActivate(s, token)
    case ResendActivation(uid, token) => DoResend(s, uid, token)
    case ChangePassword(uid, current, password, keep) => DoChangePassword(s, uid, current, password, keep)
    case RevokeSession(uid, id) => DoRevokeSession(s, uid, id)
    case SetMembership(uid, active) => DoSetMembership(s, uid, active)
    case SoftDelete(uid) => DoSoftDelete(s, uid)
  }

  ghost function Run(s: Sys, steps: seq<Step>): Sys
    decreases |steps|
  {
    if steps == [] then s else Run(Next(s, steps[0]), steps[1..])
  }

  // ---- Accounts: activation and reset secrets. ----

  function Last(issues: seq<Issue>): Issue
    requires issues != []
  {
    issues[|issues| - 1]
  }

  /** The stored activation secret is the newest one, and it is stored exactly while the user is inactive. */
  ghost predicate ActivationOk(s: Sys, u: string)
    requires u in s.users
  {
    var user, issues := s.users[u], IssuesOf(s.activations, u);
    && issues != []
    && user.isActive == user.emailVerified
    && (user.activation.Some? <==> !user.isActive)
    && (user.activation.Some? ==>
          user.activation.value == Secret(Last(issues).token, Last(issues).at + ACTIVATION_LIFETIME))
    && (forall i | 0 <= i < |issues| :: issues[i].token in s.drawn && s.drawn[issues[i].token] == u)
  }

  /** The stored reset secret is the newest one issued, and it is stored exactly until it is used. */
  ghost predicate ResetOk(s: Sys, u: string)
    requires u in s.users
  {
    var user, issues := s.users[u], IssuesOf(s.resets, u);
    && (user.reset.Some? <==> issues != [] && Last(issues).token !in s.spent)
    && (user.reset.Some? ==> user.reset.value == Secret(Last(issues).token, Last(issues).at + RESET_LIFETIME))
    && (forall i | 0 <= i < |issues| :: issues[i].token in s.drawn && s.drawn[issues[i].token] == u)
    && CountOf(s.resetCount, u) + (if user.reset.Some? then 1 else 0) <= |issues|
  }

  ghost predicate AccountsOk(s: Sys) {
    && (forall u | u in s.users :: ActivationOk(s, u) && ResetOk(s, u))
    && (forall u | u !in s.users :: u !in s.resets && u !in s.resetCount && u !in s.activations)
    && s.spent <= s.drawn.Keys
  }

  ghost predicate DrawnKept(s: Sys, s': Sys) {
    forall t | t in s.drawn :: t in s'.drawn && s'.drawn[t] == s.drawn[t]
  }

  lemma ActivationKept(s: Sys, s': Sys, u: string)
    requires u in s.users && u in s'.users && ActivationOk(s, u) && DrawnKept(s, s')
    requires s'.users[u].isActive == s.users[u].isActive && s'.users[u].emailVerified == s.users[u].emailVerified
    requires s'.users[u].activation == s.users[u].activation
    requires IssuesOf(s'.activations, u) == IssuesOf(s.activations, u)
    ensures ActivationOk(s', u)
  {
  }

  lemma ResetKept(s: Sys, s': Sys, u: string)
    requires u in s.users && u in s'.users && ResetOk(s, u) && DrawnKept(s, s')
    requires s'.users[u].reset == s.users[u].reset
    requires IssuesOf(s'.resets, u) == IssuesOf(s.resets, u) && CountOf(s'.resetCount, u) == CountOf(s.resetCount, u)
    requires s.spent <= s'.spent && forall t | t in s'.spent - s.spent :: t in s.drawn ==> s.drawn[t] != u
    ensures ResetOk(s', u)
  {
  }

  lemma ActivatedOk(s: Sys, holder: string, u: string)
    requires holder in s.users && u in s.users && ActivationOk(s, u) && ResetOk(s, u)
    ensures var s' := s.(users := s.users[holder := ActivatedUser(s.users[holder])]);
      ActivationOk(s', u) && ResetOk(s', u)
  {
    var s' := s.(users := s.users[holder := ActivatedUser(s.users[holder])]);
    ResetKept(s, s', u);
    if u != holder {
      ActivationKept(s, s', u);
    }
  }

  lemma GivenActivation(s: Sys, uid: string, user: User, token: string, u: string)
    requires AccountsOk(s) && token !in s.drawn && (u in s.users || u == uid)
    requires !user.isActive && !user.emailVerified
    requires user.activation == Some(Secret(token, s.now + ACTIVATION_LIFETIME))
    ensures ActivationOk(GiveActivation(s, uid, user, token), u)
  {
    var s' := GiveActivation(s, uid, user, token);
    if u != uid {
      ActivationKept(s, s', u);
    } else if u in s.users {
      assert ActivationOk(s, u);
    }
  }

  predicate SameSecrets(a: User, b: User) {
    && a.isActive == b.isActive && a.emailVerified == b.emailVerified
    && a.activation == b.activation && a.reset == b.reset
  }

  /** Secrets, activation and their history are the same in both states. */
  ghost predicate SameAccounts(s: Sys, s': Sys) {
    && s'.drawn == s.drawn && s'.activations == s.activations && s'.resets == s.resets
    && s'.resetCount == s.resetCount && s'.spent == s.spent && s'.users.Keys == s.users.Keys
    && forall u | u in s.users :: SameSecrets(s.users[u], s'.users[u])
  }

  lemma SameAccountsOk(s: Sys, s': Sys)
    requires AccountsOk(s) && SameAccounts(s, s')
    ensures AccountsOk(s')
  {
    forall u | u in s'.users ensures ActivationOk(s', u) && ResetOk(s', u) {
      ActivationKept(s, s', u);
      ResetKept(s, s', u);
    }
  }

  lemma OneUserSame(s: Sys, uid: string, user: User)
    requires uid in s.users && SameSecrets(s.users[uid], user)
    ensures SameAccounts(s, s.(users := s.users[uid := user]))
  {
  }

  lemma ChangePasswordFrame(s: Sys, uid: string, current: string, password: string, keep: Option<TokenHash>)
    ensures SameAccounts(s, DoChangePassword(s, uid, current, password, keep))
  {
    if uid in s.users && MayChangePassword(s.users[uid], current, password) {
      OneUserSame(s, uid, s.users[uid].(passwordHash := Bcrypt(password)));
    }
  }

  lemma SetMembershipFrame(s: Sys, uid: string, active: bool)
    ensures SameAccounts(s, DoSetMembership(s, uid, active))
  {
    if uid in s.users {
      OneUserSame(s, uid, s.users[uid].(hasMembership := active));
    }
  }

  lemma SoftDeleteFrame(s: Sys, uid: string)
    ensures SameAccounts(s, DoSoftDelete(s, uid))
  {
    if uid in s.users {
      OneUserSame(s, uid, s.users[uid].(deleted := true));
    }
  }

  /** Only sessions, the log and the clock moved. */
  lemma SessionsOnlyOk(s: Sys, s': Sys)
    requires AccountsOk(s) && s' == s.(sessions := s'.sessions, log := s'.log, now := s'.now)
    ensures AccountsOk(s')
  {
    SameAccountsOk(s, s');
  }

  lemma RegisterOk(s: Sys, uid: string, email: string, password: string, token: string)
    requires AccountsOk(s)
    ensures AccountsOk(DoRegister(s, uid, email, password, token))
  {
    var s' := DoRegister(s, uid, email, password, token);
    if s' != s {
      forall u | u in s'.users ensures ActivationOk(s', u) && ResetOk(s', u) {
        GivenActivation(s, uid, NewUser(email, password, token, s.now), token, u);
        if u in s.users { ResetKept(s, s', u); }
      }
    }
  }

  lemma GaveActivation(s: Sys, uid: string, user: User, token: string)
    requires AccountsOk(s) && uid in s.users && token !in s.drawn && user.reset == s.users[uid].reset
    requires !user.isActive && !user.emailVerified
    requires user.activation == Some(Secret(token, s.now + ACTIVATION_LIFETIME))
    ensures AccountsOk(GiveActivation(s, uid, user, token))
  {
    var s' := GiveActivation(s, uid, user, token);
    forall u | u in s'.users ensures ActivationOk(s', u) && ResetOk(s', u) {
      GivenActivation(s, uid, user, token, u);
      ResetKept(s, s', u);
    }
  }

  lemma ResendOk(s: Sys, uid: string, token: string)
    requires AccountsOk(s)
    ensures AccountsOk(DoResend(s, uid, token))
  {
    if uid in s.users && token !in s.drawn && !s.users[uid].isActive && !s.users[uid].emailVerified {
      GaveActivation(s, uid, WithActivation(s.users[uid], token, s.now), token);
    }
  }

  lemma ActivateOk(s: Sys, token: string)
    requires AccountsOk(s)
    ensures AccountsOk(DoActivate(s, token))
  {
    var s' := DoActivate(s, token);
    if s' != s {
      forall u | u in s'.users ensures ActivationOk(s', u) && ResetOk(s', u) {
        ActivatedOk(s, ActivationHolder(s, token).value, u);
      }
    }
  }

  lemma ForgotOk(s: Sys, uid: string, token: string)
    requires AccountsOk(s)
    ensures AccountsOk(DoForgot(s, uid, token))
  {
    var s' := DoForgot(s, uid, token);
    if s' != s {
      forall u | u in s'.users ensures ActivationOk(s', u) && ResetOk(s', u) {
        ActivationKept(s, s', u);
        if u != uid {
          ResetKept(s, s', u);
        } else {
          assert ResetOk(s, u) && Last(IssuesOf(s'.resets, u)) == Issue(token, s.now);
        }
      }
    }
  }

  lemma ResetHolderOk(s: Sys, u: string, token: string, password: string)
    requires u in s.users && HoldsReset(s.users[u], token, s.now) && ResetOk(s, u)
    ensures ResetOk(ApplyReset(s, u, token, password), u)
  {
  }

  lemma ResetUserOk(s: Sys, holder: string, token: string, password: string, u: string)
    requires holder in s.users && u in s.users && HoldsReset(s.users[holder], token, s.now)
    requires ResetOk(s, holder) && ActivationOk(s, u) && ResetOk(s, u)
    ensures var s' := ApplyReset(s, holder, token, password);
      ActivationOk(s', u) && ResetOk(s', u)
  {
    var s' := ApplyReset(s, holder, token, password);
    ActivationKept(s, s', u);
    if u != holder {
      ResetKept(s, s', u);
    } else {
      ResetHolderOk(s, u, token, password);
    }
  }

  lemma ResetPasswordOk(s: Sys, token: string, password: string)
    requires AccountsOk(s)
    ensures AccountsOk(DoReset(s, token, password))
  {
    var holder := ResetHolder(s, token);
    if holder.Some? {
      assert ResetOk(s, holder.value);
      forall u | u in s.users ensures
        var s' := ApplyReset(s, holder.value, token, password);
        ActivationOk(s', u) && ResetOk(s', u)
      {
        ResetUserOk(s, holder.value, token, password, u);
      }
    }
  }

  lemma ChangePasswordOk(s: Sys, uid: string, current: string, password: string, keep: Option<TokenHash>)
    requires AccountsOk(s)
    ensures AccountsOk(DoChangePassword(s, uid, current, password, keep))
  {
    ChangePasswordFrame(s, uid, current, password, keep);
    SameAccountsOk(s, DoChangePassword(s, uid, current, password, keep));
  }

  lemma UserFlagsOk(s: Sys, step: Step)
    requires AccountsOk(s) && (step.SetMembership? || step.SoftDelete?)
    ensures AccountsOk(Next(s, step))
  {
    if step.SetMembership? {
      SetMembershipFrame(s, step.uid, step.active);
    } else {
      SoftDeleteFrame(s, step.uid);
    }
    SameAccountsOk(s, Next(s, step));
  }

  predicate SessionStep(step: Step) {
    step.Tick? || step.Login? || step.IssueForMembership? || step.Logout? || step.LogoutAll? || step.RevokeSession?
  }

  lemma OpeningOk(s: Sys, uid: string, password: string, rememberMe: bool, id: string)
    requires AccountsOk(s)
    ensures AccountsOk(DoLogin(s, uid, password, rememberMe, id)) && AccountsOk(DoIssue(s, uid, id))
  {
    SessionsOnlyOk(s, OpenSession(s, uid, rememberMe, id));
    SessionsOnlyOk(s, OpenSession(s, uid, false, id));
  }

  lemma RevokingOk(s: Sys, uid: string, only: Option<TokenHash>, id: string)
    requires AccountsOk(s)
    ensures AccountsOk(RevokeWhere(s, uid, only, None)) && AccountsOk(DoRevokeSession(s, uid, id))
  {
    SessionsOnlyOk(s, RevokeWhere(s, uid, only, None));
    SessionsOnlyOk(s, DoRevokeSession(s, uid, id));
  }

  lemma SessionStepsOk(s: Sys, step: Step)
    requires AccountsOk(s) && SessionStep(step)
    ensures AccountsOk(Next(s, step))
  {
    match step
    case Tick(elapsed) =>
      SessionsOnlyOk(s, Next(s, step));
    case Login(uid, password, rememberMe, id) =>
      assert Next(s, step) == DoLogin(s, uid, password, rememberMe, id);
      OpeningOk(s, uid, password, rememberMe, id);
    case IssueForMembership(uid, id) =>
      assert Next(s, step) == DoIssue(s, uid, id);
      OpeningOk(s, uid, "", false, id);
    case Logout(uid, hash) =>
      assert Next(s, step) == RevokeWhere(s, uid, Some(hash), None);
      RevokingOk(s, uid, Some(hash), "");
    case LogoutAll(uid) =>
      assert Next(s, step) == RevokeWhere(s, uid, None, None);
      RevokingOk(s, uid, None, "");
    case RevokeSession(uid, id) =>
      assert Next(s, step) == DoRevokeSession(s, uid, id);
      RevokingOk(s, uid, None, id);
  }

  lemma NextAccountsOk(s: Sys, step: Step)
    requires AccountsOk(s)
    ensures AccountsOk(Next(s, step))
  {
    match step
    case Register(uid, email, password, token) => RegisterOk(s, uid, email, password, token);
    case ForgotPassword(uid, token) => ForgotOk(s, uid, token);
    case ResetPassword(token, password) => ResetPasswordOk(s, token, password);
    case ActivateAccount(token) => ActivateOk(s, token);
    case ResendActivation(uid, token) => ResendOk(s, uid, token);
    case ChangePassword(uid, current, password, keep) => ChangePasswordOk(s, uid, current, password, keep);
    case SetMembership(_, _) => UserFlagsOk(s, step);
    case SoftDelete(_) => UserFlagsOk(s, step);
    case _ => SessionStepsOk(s, step);
  }

  lemma TokenHasOneHolder(s: Sys, token: string, u: string, v: string)
    requires AccountsOk(s) && u in s.users && v in s.users
    requires (HoldsActivation(s.users[u], token, s.now) && HoldsActivation(s.users[v], token, s.now))
          || (HoldsReset(s.users[u], token, s.now) && HoldsReset(s.users[v], token, s.now))
    ensures u == v
  {
    assert ActivationOk(s, u) && ActivationOk(s, v) && ResetOk(s, u) && ResetOk(s, v);
  }

  lemma {:induction false} RunAccountsOk(s: Sys, steps: seq<Step>)
    requires AccountsOk(s)
    ensures AccountsOk(Run(s, steps))
    decreases |steps|
  {
    if steps != [] {
      NextAccountsOk(s, steps[0]);
      RunAccountsOk(Next(s, steps[0]), steps[1..]);
    }
  }

  /** On every run: is_active and email_verified agree, and an activation token is stored exactly
      while the user is inactive; so activateAccount never finds an activated user. */
  lemma ActivationInvariant(now: int, steps: seq<Step>, u: string)
    requires u in Run(Init(now), steps).users
    ensures var user := Run(Init(now), steps).users[u];
      && user.isActive == user.emailVerified
      && (user.activation.Some? <==> !user.isActive)
  {
    RunAccountsOk(Init(now), steps);
    assert ActivationOk(Run(Init(now), steps), u);
  }

  /** A user can be activated now with this token. */
  ghost predicate Activates(s: Sys, token: string, u: string) {
    && u in s.users && !s.users[u].isActive
    && u in Next(s, ActivateAccount(token)).users && Next(s, ActivateAccount(token)).users[u].isActive
  }

  lemma ActivationHolderIs(s: Sys, token: string, u: string)
    requires AccountsOk(s) && u in s.users && HoldsActivation(s.users[u], token, s.now)
    ensures ActivationHolder(s, token) == Some(u)
  {
    TokenHasOneHolder(s, token, u, ActivationHolder(s, token).value);
  }

  lemma ActivationHitsItsHolder(s: Sys, token: string, u: string)
    requires u in s.users && !s.users[u].isActive
    ensures u in DoActivate(s, token).users
    ensures DoActivate(s, token).users[u].isActive <==> ActivationHolder(s, token) == Some(u)
  {
  }

  lemma ActivatesWhenHeld(s: Sys, token: string, u: string)
    requires AccountsOk(s) && u in s.users
    ensures Activates(s, token, u) <==> !s.users[u].isActive && HoldsActivation(s.users[u], token, s.now)
  {
    if !s.users[u].isActive {
      ActivationHitsItsHolder(s, token, u);
      if HoldsActivation(s.users[u], token, s.now) {
        ActivationHolderIs(s, token, u);
      }
    }
  }

  /** Exactly the newest activation token issued to a user, for 24 hours and until it is used, activates. */
  lemma ActivatesExactlyWhen(now: int, steps: seq<Step>, token: string, u: string)
    requires u in Run(Init(now), steps).users
    ensures var s := Run(Init(now), steps);
      var issues := IssuesOf(s.activations, u);
      Activates(s, token, u) <==>
        && !s.users[u].isActive && !s.users[u].deleted
        && issues != [] && Last(issues).token == token && s.now < Last(issues).at + ACTIVATION_LIFETIME
  {
    RunAccountsOk(Init(now), steps);
    var s := Run(Init(now), steps);
    assert ActivationOk(s, u);
    ActivatesWhenHeld(s, token, u);
  }

  /** resetPassword(token) succeeds now, for user u. */
  ghost predicate Resets(s: Sys, token: string, u: string) {
    u in s.users && ResetHolder(s, token) == Some(u)
  }

  /** Exactly the newest reset token issued to a user, for one hour and before its first use, resets. */
  lemma ResetsExactlyWhen(now: int, steps: seq<Step>, token: string, u: string)
    requires u in Run(Init(now), steps).users
    ensures var s := Run(Init(now), steps);
      var issues := IssuesOf(s.resets, u);
      Resets(s, token, u) <==>
        && !s.users[u].deleted && token !in s.spent
        && issues != [] && Last(issues).token == token && s.now < Last(issues).at + RESET_LIFETIME
  {
    RunAccountsOk(Init(now), steps);
    var s := Run(Init(now), steps);
    assert ResetOk(s, u);
    var holder := ResetHolder(s, token);
    if holder.Some? && HoldsReset(s.users[u], token, s.now) {
      TokenHasOneHolder(s, token, u, holder.value);
    }
  }

  /** A user's successful resets never exceed the reset tokens issued to that user. */
  lemma ResetsNeverExceedIssues(now: int, steps: seq<Step>, u: string)
    requires u in Run(Init(now), steps).users
    ensures CountOf(Run(Init(now), steps).resetCount, u) <= |IssuesOf(Run(Init(now), steps).resets, u)|
  {
    RunAccountsOk(Init(now), steps);
    assert ResetOk(Run(Init(now), steps), u);
  }

  /** A reset sets the password, spends the token and leaves that user with no unrevoked session. */
  lemma ResetEndsSessions(s: Sys, token: string, password: string, u: string)
    requires Resets(s, token, u)
    ensures var s' := Next(s, ResetPassword(token, password));
      && s'.users[u].passwordHash == Bcrypt(password)
      && (forall v | v in s.users && v != u :: s'.users[v] == s.users[v])
      && token in s'.spent && CountOf(s'.resetCount, u) == CountOf(s.resetCount, u) + 1
      && (forall id | id in s'.sessions && s'.sessions[id].userId == u :: s'.sessions[id].revokedAt.Some?)
      && (forall id | id in s'.sessions && s'.sessions[id].userId != u :: s'.sessions[id] == s.sessions[id])
  {
  }

  /** A request for a reset hands out exactly one token, to the active user it is for. */
  lemma ForgotIssuesOne(s: Sys, uid: string, token: string)
    requires uid in s.users && token !in s.drawn && s.users[uid].isActive && !s.users[uid].deleted
    ensures
      var s' := Next(s, ForgotPassword(uid, token));
      && IssuesOf(s'.resets, uid) == IssuesOf(s.resets, uid) + [Issue(token, s.now)]
      && (forall v | v != uid :: IssuesOf(s'.resets, v) == IssuesOf(s.resets, v))
      && s'.resetCount == s.resetCount && s'.spent == s.spent
  {
  }

  // ---- Who may log in. ----

  ghost predicate NoAdmins(users: Users) {
    forall u | u in users :: !users[u].isPlatformAdmin
  }

  lemma NextNoAdmins(s: Sys, step: Step)
    requires NoAdmins(s.users)
    ensures NoAdmins(Next(s, step).users)
  {
  }

  lemma {:induction false} RunNoAdmins(s: Sys, steps: seq<Step>)
    requires NoAdmins(s.users)
    ensures NoAdmins(Run(s, steps).users)
    decreases |steps|
  {
    if steps != [] {
      NextNoAdmins(s, steps[0]);
      RunNoAdmins(Next(s, steps[0]), steps[1..]);
    }
  }

  /** No operation makes anyone a platform administrator, so on every run a login takes a membership. */
  lemma NobodyIsPlatformAdmin(now: int, steps: seq<Step>, u: string)
    requires u in Run(Init(now), steps).users
    ensures
      var user := Run(Init(now), steps).users[u];
      && !user.isPlatformAdmin
      && forall password :: MayLogin(user, password) ==> user.hasMembership
  {
    RunNoAdmins(Init(now), steps);
  }

  lemma NextKeepsDeleted(s: Sys, step: Step, u: string)
    requires u in s.users && s.users[u].deleted
    ensures var users := Next(s, step).users;
      u in users && users[u].deleted
  {
  }

  lemma {:induction false} RunKeepsDeleted(s: Sys, steps: seq<Step>, u: string)
    requires u in s.users && s.users[u].deleted
    ensures var users := Run(s, steps).users;
      u in users && users[u].deleted
    decreases |steps|
  {
    if steps != [] {
      NextKeepsDeleted(s, steps[0], u);
      RunKeepsDeleted(Next(s, steps[0]), steps[1..], u);
    }
  }

  /** A user who was deleted never logs in again, whatever happens afterwards, and is sent no token. */
  lemma DeletedUserIsLockedOut(s: Sys, steps: seq<Step>, uid: string, password: string, rememberMe: bool, id: string)
    requires uid in s.users
    ensures var t := Run(Next(s, SoftDelete(uid)), steps);
      && uid in t.users && !MayLogin(t.users[uid], password)
      && Next(t, Login(uid, password, rememberMe, id)) == t
      && Next(t, ForgotPassword(uid, id)) == t && Next(t, ResendActivation(uid, id)) == t
  {
    RunKeepsDeleted(Next(s, SoftDelete(uid)), steps, uid);
  }

  lemma NextKeepsOut(s: Sys, step: Step, u: string)
    requires u in s.users && !s.users[u].hasMembership && step != SetMembership(u, true)
    ensures var users := Next(s, step).users;
      u in users && !users[u].hasMembership
  {
  }

  lemma {:induction false} RunKeepsOut(s: Sys, steps: seq<Step>, u: string)
    requires u in s.users && !s.users[u].hasMembership && SetMembership(u, true) !in steps
    ensures var users := Run(s, steps).users;
      u in users && !users[u].hasMembership
    decreases |steps|
  {
    if steps != [] {
      NextKeepsOut(s, steps[0], u);
      RunKeepsOut(Next(s, steps[0]), steps[1..], u);
    }
  }

  /** A user whose membership ended logs in no more until it is given back. */
  lemma EndedMembershipLocksOut(
      now: int, before: seq<Step>, steps: seq<Step>, uid: string, password: string, rememberMe: bool, id: string)
    requires uid in Run(Init(now), before).users && SetMembership(uid, true) !in steps
    ensures var t := Run(Next(Run(Init(now), before), SetMembership(uid, false)), steps);
      && uid in t.users && !MayLogin(t.users[uid], password)
      && Next(t, Login(uid, password, rememberMe, id)) == t
  {
    RunNoAdmins(Init(now), before);
    var s := Next(Run(Init(now), before), SetMembership(uid, false));
    NextNoAdmins(Run(Init(now), before), SetMembership(uid, false));
    RunNoAdmins(s, steps);
    RunKeepsOut(s, steps, uid);
  }

  /** The step neither deletes the user, nor ends the membership, nor sets or starts to set a new password,
      nor replaces the activation token. */
  predicate Spares(step: Step, uid: string) {
    match step
    case SoftDelete(u) => u != uid
    case SetMembership(u, active) => u != uid || active
    case ForgotPassword(u, _) => u != uid
    case ChangePassword(u, _, _, _) => u != uid
    case ResendActivation(u, _) => u != uid
    case _ => true
  }

  ghost predicate AllSpare(steps: seq<Step>, uid: string) {
    forall i | 0 <= i < |steps| :: Spares(steps[i], uid)
  }

  /** As registered, but for activation. */
  ghost predicate AsRegistered(s: Sys, uid: string, password: string, secret: Secret) {
    && uid in s.users
    && var user := s.users[uid];
       && user.passwordHash == Bcrypt(password) && user.hasMembership && !user.deleted && user.reset.None?
       && ((user.isActive && user.emailVerified) || user.activation == Some(secret))
  }

  /** Only a user with a reset token stored can be reset. */
  lemma OthersReset(s: Sys, token: string, password: string, uid: string)
    requires uid in s.users && s.users[uid].reset.None?
    ensures uid in DoReset(s, token, password).users && DoReset(s, token, password).users[uid] == s.users[uid]
  {
  }

  lemma ActivationOnly(s: Sys, token: string, uid: string)
    requires uid in s.users
    ensures
      var s' := DoActivate(s, token);
      uid in s'.users && (s'.users[uid] == s.users[uid] || s'.users[uid] == ActivatedUser(s.users[uid]))
  {
  }

  lemma SessionStepsKeepUsers(s: Sys, step: Step)
    requires SessionStep(step)
    ensures Next(s, step).users == s.users
  {
  }

  lemma OthersLeaveUser(s: Sys, step: Step, uid: string)
    requires uid in s.users && Spares(step, uid) && !step.ResetPassword? && !step.ActivateAccount?
    ensures
      var users' := Next(s, step).users;
      uid in users' && (users'[uid] == s.users[uid] || users'[uid] == s.users[uid].(hasMembership := true))
  {
    if SessionStep(step) {
      SessionStepsKeepUsers(s, step);
    }
  }

  lemma NextAsRegistered(s: Sys, step: Step, uid: string, password: string, secret: Secret)
    requires AsRegistered(s, uid, password, secret) && Spares(step, uid)
    ensures AsRegistered(Next(s, step), uid, password, secret)
    ensures s.users[uid].isActive && s.users[uid].emailVerified ==>
      Next(s, step).users[uid].isActive && Next(s, step).users[uid].emailVerified
  {
    if step.ResetPassword? {
      OthersReset(s, step.token, step.password, uid);
    } else if step.ActivateAccount? {
      ActivationOnly(s, step.token, uid);
    } else {
      OthersLeaveUser(s, step, uid);
    }
  }

  lemma {:induction false} RunAsRegistered(s: Sys, steps: seq<Step>, uid: string, password: string, secret: Secret)
    requires AsRegistered(s, uid, password, secret) && AllSpare(steps, uid)
    ensures AsRegistered(Run(s, steps), uid, password, secret)
    ensures s.users[uid].isActive && s.users[uid].emailVerified ==>
      Run(s, steps).users[uid].isActive && Run(s, steps).users[uid].emailVerified
    decreases |steps|
  {
    if steps != [] {
      assert Spares(steps[0], uid);
      NextAsRegistered(s, steps[0], uid, password, secret);
      RunAsRegistered(Next(s, steps[0]), steps[1..], uid, password, secret);
    }
  }

  lemma ActivatedInTime(s: Sys, uid: string, password: string, secret: Secret)
    requires AccountsOk(s) && AsRegistered(s, uid, password, secret) && s.now < secret.expires
    ensures
      var s' := Next(s, ActivateAccount(secret.token));
      AsRegistered(s', uid, password, secret) && s'.users[uid].isActive && s'.users[uid].emailVerified
  {
    if s.users[uid].activation == Some(secret) {
      ActivationHolderIs(s, secret.token, uid);
    }
  }

  lemma RegistrationHolds(s: Sys, uid: string, email: string, password: string, token: string)
    requires uid !in s.users && token !in s.drawn && forall u | u in s.users :: s.users[u].email != email
    ensures AsRegistered(Next(s, Register(uid, email, password, token)), uid, password,
                         Secret(token, s.now + ACTIVATION_LIFETIME))
  {
  }

  lemma FitToLogIn(s: Sys, uid: string, password: string, secret: Secret, between: seq<Step>, after: seq<Step>)
    requires AccountsOk(s) && AsRegistered(s, uid, password, secret) && AllSpare(between, uid) && AllSpare(after, uid)
    requires Run(s, between).now < secret.expires
    ensures
      var t := Run(Next(Run(s, between), ActivateAccount(secret.token)), after);
      uid in t.users && MayLogin(t.users[uid], password)
  {
    RunAsRegistered(s, between, uid, password, secret);
    RunAccountsOk(s, between);
    ActivatedInTime(Run(s, between), uid, password, secret);
    RunAsRegistered(Next(Run(s, between), ActivateAccount(secret.token)), after, uid, password, secret);
  }

  lemma LoginOpens(s: Sys, uid: string, password: string, rememberMe: bool, id: string)
    requires uid in s.users && MayLogin(s.users[uid], password) && id !in s.sessions
    ensures id in Next(s, Login(uid, password, rememberMe, id)).sessions
  {
  }

  /** Whoever registers, activates within 24 hours, is not deleted and keeps the membership and the password
      may log in with the password given, whatever else happens in between and afterwards. */
  lemma RegisteredUserMayLogIn(
      now: int, before: seq<Step>, uid: string, email: string, password: string, token: string,
      between: seq<Step>, after: seq<Step>, id: string, rememberMe: bool)
    requires
      var s := Run(Init(now), before);
      uid !in s.users && token !in s.drawn && forall u | u in s.users :: s.users[u].email != email
    requires AllSpare(between, uid) && AllSpare(after, uid)
    requires
      var s := Run(Init(now), before);
      Run(Next(s, Register(uid, email, password, token)), between).now < s.now + ACTIVATION_LIFETIME
    ensures
      var s := Run(Init(now), before);
      var activated := Next(Run(Next(s, Register(uid, email, password, token)), between), ActivateAccount(token));
      var t := Run(activated, after);
      && uid in t.users && MayLogin(t.users[uid], password)
      && (id !in t.sessions ==> id in Next(t, Login(uid, password, rememberMe, id)).sessions)
  {
    var s := Run(Init(now), before);
    var s1 := Next(s, Register(uid, email, password, token));
    RunAccountsOk(Init(now), before);
    NextAccountsOk(s, Register(uid, email, password, token));
    RegistrationHolds(s, uid, email, password, token);
    FitToLogIn(s1, uid, password, Secret(token, s.now + ACTIVATION_LIFETIME), between, after);
    var t := Run(Next(Run(s1, between), ActivateAccount(token)), after);
    if id !in t.sessions {
      LoginOpens(t, uid, password, rememberMe, id);
    }
  }
}
