/** auth.service.ts as an object over its two tables; every method runs to its end. The ghost `run` is the
    state of the whole-run machine: each method is one of its steps, taken at the time `now`. */
module AuthService {
  import opened Wrappers
  import opened Clock
  import opened Passwords
  import opened AuthModel
  import opened AuthRuns
  import opened AuthSessions

  datatype AuthError =
    | EmailTaken
    | InvalidCredentials
    | NotActivated
    | NotVerified
    | NoMembership
    | InvalidOrExpiredToken
    | AlreadyActivated
    | UserNotFound
    | WrongPassword
    | SamePassword
    | SessionNotFound

  /** Why a login is turned away, in the order the code checks. */
  function LoginRefusal(user: User, password: string): Option<AuthError> {
    if user.passwordHash != Bcrypt(password) then Some(InvalidCredentials)
    else if !user.isActive then Some(NotActivated)
    else if !user.emailVerified then Some(NotVerified)
    else if !user.hasMembership && !user.isPlatformAdmin then Some(NoMembership)
    else None
  }

  predicate IsActivated(user: User) {
    user.isActive && user.emailVerified
  }

  /** The clock has moved on to `now`. */
  function At(s: Sys, now: int): Sys {
    s.(now := now)
  }

  /** One more operation on a run, at its own time. */
  lemma {:induction false} Extend(s: Sys, trace: seq<Step>, t: Sys, now: int, step: Step)
    requires t == Run(s, trace) && t.now <= now
    ensures Run(s, trace + [Tick(now - t.now), step]) == Next(At(t, now), step)
    decreases |trace|
  {
    var more := [Tick(now - t.now), step];
    if trace == [] {
      assert trace + more == more && more[1..] == [step] && [step][1..] == [];
      assert Run(s, more) == Run(Next(s, more[0]), [step]) == Next(Next(s, more[0]), step);
    } else {
      assert (trace + more)[0] == trace[0] && (trace + more)[1..] == trace[1..] + more;
      Extend(Next(s, trace[0]), trace[1..], t, now, step);
    }
  }

  ghost predicate EmailsUnique(users: Users) {
    forall u, v | u in users && v in users && users[u].email == users[v].email :: u == v
  }

  lemma AtAccountsOk(s: Sys, now: int)
    requires AccountsOk(s)
    ensures AccountsOk(At(s, now))
  {
    SessionsOnlyOk(s, At(s, now));
  }

  lemma OneHolder(s: Sys, u: string, token: string)
    requires AccountsOk(s) && u in s.users
    ensures HoldsReset(s.users[u], token, s.now) ==> ResetHolder(s, token) == Some(u)
    ensures HoldsActivation(s.users[u], token, s.now) ==> ActivationHolder(s, token) == Some(u)
  {
    var r, a := ResetHolder(s, token), ActivationHolder(s, token);
    if r.Some? && HoldsReset(s.users[u], token, s.now) {
      TokenHasOneHolder(s, token, u, r.value);
    }
    if a.Some? && HoldsActivation(s.users[u], token, s.now) {
      TokenHasOneHolder(s, token, u, a.value);
    }
  }

  /** On a run, findFirst on a token has one answer. */
  lemma HolderIsUnique(start: int, trace: seq<Step>, now: int, u: string, token: string)
    requires u in Run(Init(start), trace).users
    ensures var s := At(Run(Init(start), trace), now);
      && (HoldsReset(s.users[u], token, now) ==> ResetHolder(s, token) == Some(u))
      && (HoldsActivation(s.users[u], token, now) ==> ActivationHolder(s, token) == Some(u))
  {
    RunAccountsOk(Init(start), trace);
    AtAccountsOk(Run(Init(start), trace), now);
    OneHolder(At(Run(Init(start), trace), now), u, token);
  }

  /** The tickets of one user with one hash, or with any, that are alive and not expired. */
  function Usable(alive: map<string, Ticket>, userId: string, only: Option<TokenHash>, now: int): set<string> {
    set id | id in alive && Matches(alive[id], userId, only, None) && alive[id].expires > now
  }

  function UsableRows(sessions: Sessions, userId: string, only: Option<TokenHash>, now: int): set<string> {
    set id | id in sessions && Hit(sessions[id], userId, only, None) && sessions[id].expiresAt > now
  }

  lemma RowsAreTickets(start: int, trace: seq<Step>, userId: string, only: Option<TokenHash>, now: int)
    ensures var s := Run(Init(start), trace);
      && UsableRows(s.sessions, userId, only, now) == Usable(Alive(s.log), userId, only, now)
      && forall id | id in UsableRows(s.sessions, userId, only, now) ::
           Alive(s.log)[id].hash == s.sessions[id].tokenHash
  {
    RunRefines(Init(start), trace);
  }

  /** The account that has this email and this password. */
  ghost predicate IsAccount(users: Users, u: string, email: string, password: string) {
    u in users && users[u].email == email && !users[u].deleted && users[u].passwordHash.password == password
  }

  /** Why an account with the right password is turned away, if it is. */
  ghost predicate RefusedBecause(user: User, e: Option<AuthError>) {
    e == if !user.isActive then Some(NotActivated)
         else if !user.emailVerified then Some(NotVerified)
         else if !(user.hasMembership || user.isPlatformAdmin) then Some(NoMembership)
         else None
  }

  /** A row for a refresh token signed now, for thirty days if remembered and for seven otherwise. */
  ghost predicate IsNewSession(session: Session, userId: string, rememberMe: bool, now: int) {
    var days := if rememberMe then 30 else 7;
    && session.userId == userId && session.revokedAt.None? && session.expiresAt == now + days * 24 * HOUR
    && session.tokenHash == OfRefresh(userId, Seconds(now), Seconds(now) + days * 86400)
  }

  ghost predicate HasLiveHash(session: Session, hash: TokenHash, now: int) {
    && hash.OfRefresh? && session.userId == hash.sub && session.tokenHash == hash
    && session.revokedAt.None? && session.expiresAt > now
  }

  /** The email column being unique, the account found decides. */
  lemma OnlyUser(users: Users, u: string, password: string)
    requires EmailsUnique(users) && u in users && !users[u].deleted
    ensures forall v | IsAccount(users, v, users[u].email, password) :: v == u
    ensures LoginRefusal(users[u], password) == Some(InvalidCredentials) <==> users[u].passwordHash.password != password
    ensures users[u].passwordHash.password == password ==> RefusedBecause(users[u], LoginRefusal(users[u], password))
  {
  }

  lemma EmailsKept(users: Users, u: string, user: User)
    requires EmailsUnique(users) && u in users && user.email == users[u].email
    ensures EmailsUnique(users[u := user])
  {
  }

  // What an operation that is not refused does to the two tables

  lemma ForgotTables(s: Sys, u: string, token: string)
    requires u in s.users && token !in s.drawn && s.users[u].isActive && !s.users[u].deleted
    ensures var s' := Next(s, ForgotPassword(u, token));
      s'.users == s.users[u := WithReset(s.users[u], token, s.now)] && s'.sessions == s.sessions
  {
  }

  lemma ResendTables(s: Sys, u: string, token: string)
    requires u in s.users && token !in s.drawn
    requires !s.users[u].isActive && !s.users[u].emailVerified && !s.users[u].deleted
    ensures var s' := Next(s, ResendActivation(u, token));
      s'.users == s.users[u := WithActivation(s.users[u], token, s.now)] && s'.sessions == s.sessions
  {
  }

  lemma ChangeTables(s: Sys, u: string, current: string, password: string, keep: Option<TokenHash>)
    requires u in s.users && MayChangePassword(s.users[u], current, password)
    ensures var s' := Next(s, ChangePassword(u, current, password, keep));
      && s'.users == s.users[u := s.users[u].(passwordHash := Bcrypt(password))]
      && s'.sessions == Revoke(s.sessions, Hits(s.sessions, u, None, keep), s.now)
  {
  }

  /** The row of a session signed now outlives its refresh token, and not by a whole second. */
  lemma SessionLifetime(u: string, rememberMe: bool, now: int, later: int)
    ensures var session := NewSession(u, rememberMe, now);
      && (Seconds(later) < session.tokenHash.exp ==> later < session.expiresAt)
      && (later < session.expiresAt ==> Seconds(later) <= session.tokenHash.exp)
  {
    assert RefreshLifetime(rememberMe) % 1000 == 0;
  }

  class Auth {
    var users: Users
    var sessions: Sessions
    ghost var run: Sys
    ghost var trace: seq<Step>
    ghost const start: int

    /** The tables are those of the state the run so far has reached, and the email column is unique. */
    ghost predicate Valid()
      reads this
    {
      run == Run(Init(start), trace) && run.users == users && run.sessions == sessions && EmailsUnique(users)
    }

    constructor (now: int)
      ensures Valid() && users == map[] && sessions == map[] && run == Init(now)
    {
      users, sessions := map[], map[];
      run, trace, start := Init(now), [], now;
    }

    /** The run goes on by one operation. */
    ghost method Record(now: int, step: Step)
      requires run == Run(Init(start), trace) && run.now <= now
      modifies this`run, this`trace
      ensures run == Next(At(old(run), now), step) == Run(Init(start), trace)
    {
      Extend(Init(start), trace, run, now, step);
      trace := trace + [Tick(now - run.now), step];
      run := Next(At(run, now), step);
    }

    method Register(uid: string, email: string, password: string, token: string, now: int)
      returns (r: Result<(), AuthError>)
      requires Valid() && run.now <= now && uid !in users && token !in run.drawn
      modifies this`users, this`run, this`trace
      ensures Valid() && run == Next(At(old(run), now), AuthRuns.Register(uid, email, password, token))
      ensures r.Err? <==> exists u :: u in old(users) && old(users)[u].email == email
      ensures r.Err? ==> users == old(users) && r.error == EmailTaken
      ensures r.Ok? ==>
        && uid in users && users == old(users)[uid := users[uid]]
        && users[uid].email == email && users[uid].passwordHash == Bcrypt(password)
        && !users[uid].isActive && !users[uid].emailVerified
        && users[uid].activation == Some(Secret(token, now + 24 * HOUR)) && users[uid].reset.None?
        && !users[uid].isPlatformAdmin && users[uid].hasMembership && !users[uid].deleted
    {
      Record(now, AuthRuns.Register(uid, email, password, token));
      if u :| u in users && users[u].email == email {
        return Err(EmailTaken);
      }
      users := users[uid := NewUser(email, password, token, now)];
      return Ok(());
    }

    /** The part of login behind its checks. */
    method OpenSession(u: string, password: string, rememberMe: bool, id: string, now: int)
      requires Valid() && run.now <= now && u in users && MayLogin(users[u], password) && id !in sessions
      modifies this`sessions, this`run, this`trace
      ensures Valid() && run == Next(At(old(run), now), AuthRuns.Login(u, password, rememberMe, id))
      ensures sessions == old(sessions)[id := sessions[id]] && IsNewSession(sessions[id], u, rememberMe, now)
    {
      Record(now, AuthRuns.Login(u, password, rememberMe, id));
      sessions := sessions[id := NewSession(u, rememberMe, now)];
    }

    method Login(email: string, password: string, rememberMe: bool, id: string, now: int)
        returns (r: Result<TokenHash, AuthError>)
      requires Valid() && run.now <= now && id !in sessions
      modifies this`sessions, this`run, this`trace
      ensures Valid()
      ensures r.Ok? <==> exists u :: IsAccount(users, u, email, password) && RefusedBecause(users[u], None)
      ensures r == Err(InvalidCredentials) <==> !exists u :: IsAccount(users, u, email, password)
      ensures r.Err? && r.error != InvalidCredentials ==>
        exists u :: IsAccount(users, u, email, password) && RefusedBecause(users[u], Some(r.error))
      ensures r.Err? ==> sessions == old(sessions) && run == old(run)
      ensures r.Ok? ==>
        && id in sessions && r.value == sessions[id].tokenHash
        && IsAccount(users, sessions[id].userId, email, password)
        && sessions == old(sessions)[id := sessions[id]]
        && IsNewSession(sessions[id], sessions[id].userId, rememberMe, now)
        && run == Next(At(old(run), now), AuthRuns.Login(sessions[id].userId, password, rememberMe, id))
    {
      if u :| u in users && users[u].email == email && !users[u].deleted {
        OnlyUser(users, u, password);
        var refusal := LoginRefusal(users[u], password);
        if refusal.Some? {
          return Err(refusal.value);
        }
        OpenSession(u, password, rememberMe, id, now);
        return Ok(sessions[id].tokenHash);
      }
      return Err(InvalidCredentials);
    }

    /** The refresh strategy's checks and then refresh. A refresh token is worth an access token exactly
        when its ticket was issued and not revoked since, nothing has expired, and its user is active with
        a membership. */
    method Refresh(hash: TokenHash, now: int) returns (issued: bool)
      requires Valid()
      ensures issued <==>
        && hash.OfRefresh? && Seconds(now) < hash.exp && Usable(Alive(run.log), hash.sub, Some(hash), now) != {}
        && (exists i :: i in sessions && HasLiveHash(sessions[i], hash, now))
        && hash.sub in users && users[hash.sub].isActive && !users[hash.sub].deleted
        && (users[hash.sub].hasMembership || users[hash.sub].isPlatformAdmin)
    {
      if !hash.OfRefresh? || Seconds(now) >= hash.exp {
        return false;
      }
      RowsAreTickets(start, trace, hash.sub, Some(hash), now);
      if UsableRows(sessions, hash.sub, Some(hash), now) == {} {
        return false;
      }
      if hash.sub !in users || !users[hash.sub].isActive || users[hash.sub].deleted {
        return false;
      }
      return users[hash.sub].hasMembership || users[hash.sub].isPlatformAdmin;
    }

    method IssueTokensForMembership(userId: string, id: string, now: int)
      requires Valid() && run.now <= now && userId in users && id !in sessions
      modifies this`sessions, this`run, this`trace
      ensures Valid() && run == Next(At(old(run), now), IssueForMembership(userId, id))
      ensures id in sessions && sessions == old(sessions)[id := sessions[id]]
      ensures IsNewSession(sessions[id], userId, false, now)
    {
      Record(now, IssueForMembership(userId, id));
      sessions := sessions[id := NewSession(userId, false, now)];
    }

    /** updateMany on refresh_token, with the number of rows it changed. */
    method RevokeMatching(userId: string, only: Option<TokenHash>, except: Option<TokenHash>, now: int)
      returns (count: nat)
      modifies this`sessions
      ensures sessions == Revoke(old(sessions), Hits(old(sessions), userId, only, except), now)
      ensures sessions.Keys == old(sessions.Keys)
      ensures forall i | i in sessions ::
        sessions[i] == (if Hit(old(sessions)[i], userId, only, except)
                        then old(sessions)[i].(revokedAt := Some(now)) else old(sessions)[i])
      ensures count == |Hits(old(sessions), userId, only, except)|
    {
      count := |Hits(sessions, userId, only, except)|;
      sessions := Revoke(sessions, Hits(sessions, userId, only, except), now);
    }

    method Logout(userId: string, tokenHash: TokenHash, now: int)
      requires Valid() && run.now <= now
      modifies this`sessions, this`run, this`trace
      ensures Valid() && run == Next(At(old(run), now), AuthRuns.Logout(userId, tokenHash))
      ensures sessions.Keys == old(sessions.Keys)
      ensures forall i | i in sessions ::
        sessions[i] == (if && old(sessions)[i].userId == userId && old(sessions)[i].tokenHash == tokenHash
                           && old(sessions)[i].revokedAt.None?
                        then old(sessions)[i].(revokedAt := Some(now)) else old(sessions)[i])
    {
      Record(now, AuthRuns.Logout(userId, tokenHash));
      var _ := RevokeMatching(userId, Some(tokenHash), None, now);
    }

    /** Reports exactly how many rows it revoked, and leaves the user none that is not revoked. */
    method LogoutAll(userId: string, now: int) returns (revoked: nat)
      requires Valid() && run.now <= now
      modifies this`sessions, this`run, this`trace
      ensures Valid() && run == Next(At(old(run), now), AuthRuns.LogoutAll(userId))
      ensures sessions.Keys == old(sessions.Keys)
      ensures revoked == |set i | i in old(sessions) && old(sessions)[i] != sessions[i]|
      ensures forall i | i in sessions && sessions[i].userId == userId :: sessions[i].revokedAt.Some?
      ensures forall i | i in sessions && (old(sessions)[i].userId != userId || old(sessions)[i].revokedAt.Some?) ::
        sessions[i] == old(sessions)[i]
    {
      Record(now, AuthRuns.LogoutAll(userId));
      revoked := RevokeMatching(userId, None, None, now);
      assert Hits(old(sessions), userId, None, None) == set i | i in old(sessions) && old(sessions)[i] != sessions[i];
    }

    method GiveReset(u: string, token: string, now: int)
      requires Valid() && run.now <= now && token !in run.drawn && u in users && users[u].isActive && !users[u].deleted
      modifies this`users, this`run, this`trace
      ensures Valid() && run == Next(At(old(run), now), AuthRuns.ForgotPassword(u, token))
      ensures users == old(users)[u := old(users)[u].(reset := Some(Secret(token, now + HOUR)))]
    {
      ForgotTables(At(run, now), u, token);
      EmailsKept(users, u, WithReset(users[u], token, now));
      Record(now, AuthRuns.ForgotPassword(u, token));
      users := users[u := WithReset(users[u], token, now)];
    }

    /** Answers the same whether or not the account exists. */
    method ForgotPassword(email: string, token: string, now: int)
      requires Valid() && run.now <= now && token !in run.drawn
      modifies this`users, this`run, this`trace
      ensures Valid() && users.Keys == old(users.Keys)
      ensures forall u | u in users && users[u] != old(users)[u] ::
        run == Next(At(old(run), now), AuthRuns.ForgotPassword(u, token))
      ensures users == old(users) ==> run == old(run)
      ensures forall u | u in users ::
        users[u] == (if old(users)[u].email == email && old(users)[u].isActive && !old(users)[u].deleted
                     then old(users)[u].(reset := Some(Secret(token, now + HOUR))) else old(users)[u])
    {
      if u :| u in users && users[u].email == email && users[u].isActive && !users[u].deleted {
        NotYetStored(u, token);
        GiveReset(u, token, now);
      }
    }

    /** A token never drawn before is in no row. */
    lemma NotYetStored(u: string, token: string)
      requires Valid() && u in users && token !in run.drawn
      ensures users[u].reset.Some? ==> users[u].reset.value.token != token
      ensures users[u].activation.Some? ==> users[u].activation.value.token != token
    {
      RunAccountsOk(Init(start), trace);
      assert ActivationOk(run, u) && ResetOk(run, u);
    }

    /** The part of resetPassword behind its lookup. */
    method ApplyReset(u: string, token: string, password: string, now: int)
      requires Valid() && run.now <= now && u in users && HoldsReset(users[u], token, now)
      modifies this
      ensures Valid() && run == Next(At(old(run), now), AuthRuns.ResetPassword(token, password))
      ensures users == old(users)[u := old(users)[u].(passwordHash := Bcrypt(password), reset := None)]
      ensures sessions == Revoke(old(sessions), Hits(old(sessions), u, None, None), now)
    {
      HolderIsUnique(start, trace, now, u, token);
      Record(now, AuthRuns.ResetPassword(token, password));
      users := users[u := users[u].(passwordHash := Bcrypt(password), reset := None)];
      var _ := RevokeMatching(u, None, None, now);
    }

    method ResetPassword(token: string, password: string, now: int) returns (r: Result<string, AuthError>)
      requires Valid() && run.now <= now
      modifies this
      ensures Valid()
      ensures r.Ok? <==> exists u :: u in old(users) && HoldsReset(old(users)[u], token, now)
      ensures r.Err? ==> users == old(users) && sessions == old(sessions) && run == old(run)
      ensures r.Ok? ==>
        && run == Next(At(old(run), now), AuthRuns.ResetPassword(token, password))
        && r.value in old(users) && HoldsReset(old(users)[r.value], token, now)
        && users == old(users)[r.value := old(users)[r.value].(passwordHash := Bcrypt(password), reset := None)]
        && sessions.Keys == old(sessions.Keys)
        && (forall i | i in sessions && sessions[i].userId == r.value :: sessions[i].revokedAt.Some?)
        && (forall i | i in sessions && sessions[i].userId != r.value :: sessions[i] == old(sessions)[i])
    {
      if u :| u in users && HoldsReset(users[u], token, now) {
        ApplyReset(u, token, password, now);
        return Ok(u);
      }
      return Err(InvalidOrExpiredToken);
    }

    method Activate(u: string, token: string, now: int)
      requires Valid() && run.now <= now && u in users && HoldsActivation(users[u], token, now)
      requires !IsActivated(users[u])
      modifies this`users, this`run, this`trace
      ensures Valid() && run == Next(At(old(run), now), AuthRuns.ActivateAccount(token))
      ensures users == old(users)[u := old(users)[u].(isActive := true, emailVerified := true, activation := None)]
    {
      HolderIsUnique(start, trace, now, u, token);
      Record(now, AuthRuns.ActivateAccount(token));
      users := users[u := users[u].(isActive := true, emailVerified := true, activation := None)];
    }

    lemma SameHolder(u: string, token: string, now: int)
      requires Valid() && u in users && HoldsActivation(users[u], token, now)
      ensures forall v | v in users && HoldsActivation(users[v], token, now) :: v == u
    {
      HolderIsUnique(start, trace, now, u, token);
      forall v | v in users && HoldsActivation(users[v], token, now) ensures v == u {
        HolderIsUnique(start, trace, now, v, token);
      }
    }

    method ActivateAccount(token: string, now: int) returns (r: Result<string, AuthError>)
      requires Valid() && run.now <= now
      modifies this`users, this`run, this`trace
      ensures Valid()
      ensures r == Err(InvalidOrExpiredToken) <==>
        !exists u :: u in old(users) && HoldsActivation(old(users)[u], token, now)
      ensures r.Ok? <==>
        exists u :: u in old(users) && HoldsActivation(old(users)[u], token, now) && !IsActivated(old(users)[u])
      ensures r.Err? ==> users == old(users) && run == old(run) && r.error in {InvalidOrExpiredToken, AlreadyActivated}
      ensures r.Ok? ==>
        && run == Next(At(old(run), now), AuthRuns.ActivateAccount(token))
        && r.value in old(users) && HoldsActivation(old(users)[r.value], token, now)
        && users == old(users)[r.value :=
             old(users)[r.value].(isActive := true, emailVerified := true, activation := None)]
    {
      if u :| u in users && HoldsActivation(users[u], token, now) {
        if IsActivated(users[u]) {
          SameHolder(u, token, now);
          return Err(AlreadyActivated);
        }
        Activate(u, token, now);
        return Ok(u);
      }
      return Err(InvalidOrExpiredToken);
    }

    method GiveActivation(u: string, token: string, now: int)
      requires Valid() && run.now <= now && token !in run.drawn && u in users
      requires !users[u].isActive && !users[u].emailVerified && !users[u].deleted
      modifies this`users, this`run, this`trace
      ensures Valid() && run == Next(At(old(run), now), AuthRuns.ResendActivation(u, token))
      ensures users == old(users)[u := old(users)[u].(activation := Some(Secret(token, now + 24 * HOUR)))]
    {
      ResendTables(At(run, now), u, token);
      EmailsKept(users, u, WithActivation(users[u], token, now));
      Record(now, AuthRuns.ResendActivation(u, token));
      users := users[u := WithActivation(users[u], token, now)];
    }

    method ResendActivation(email: string, token: string, now: int)
      requires Valid() && run.now <= now && token !in run.drawn
      modifies this`users, this`run, this`trace
      ensures Valid() && users.Keys == old(users.Keys)
      ensures forall u | u in users && users[u] != old(users)[u] ::
        run == Next(At(old(run), now), AuthRuns.ResendActivation(u, token))
      ensures users == old(users) ==> run == old(run)
      ensures forall u | u in users ::
        users[u] == (if && old(users)[u].email == email && !old(users)[u].deleted
                        && !old(users)[u].isActive && !old(users)[u].emailVerified
                     then old(users)[u].(activation := Some(Secret(token, now + 24 * HOUR))) else old(users)[u])
    {
      if u :| u in users && users[u].email == email && !users[u].isActive && !users[u].emailVerified
            && !users[u].deleted {
        NotYetStored(u, token);
        GiveActivation(u, token, now);
      }
    }

    /** The part of changePassword behind its checks. */
    method StorePassword(userId: string, current: string, password: string, keep: Option<TokenHash>, now: int)
      requires Valid() && run.now <= now && userId in users && MayChangePassword(users[userId], current, password)
      modifies this
      ensures Valid() && run == Next(At(old(run), now), AuthRuns.ChangePassword(userId, current, password, keep))
      ensures users == old(users)[userId := old(users)[userId].(passwordHash := Bcrypt(password))]
      ensures sessions == Revoke(old(sessions), Hits(old(sessions), userId, None, keep), now)
    {
      ChangeTables(At(run, now), userId, current, password, keep);
      EmailsKept(users, userId, users[userId].(passwordHash := Bcrypt(password)));
      Record(now, AuthRuns.ChangePassword(userId, current, password, keep));
      users := users[userId := users[userId].(passwordHash := Bcrypt(password))];
      if keep.Some? {
        var _ := RevokeMatching(userId, None, keep, now);
      } else {
        var _ := RevokeMatching(userId, None, None, now);
      }
    }

    /** Keeps, of the user's unrevoked rows, exactly those with the given hash; without one, none. */
    method ChangePassword(userId: string, current: string, password: string, keep: Option<TokenHash>, now: int)
      returns (r: Result<(), AuthError>)
      requires Valid() && run.now <= now
      modifies this
      ensures Valid()
      ensures r == Err(UserNotFound) <==> userId !in old(users) || old(users)[userId].deleted
      ensures r == Err(WrongPassword) <==> r != Err(UserNotFound) && old(users)[userId].passwordHash.password != current
      ensures r == Err(SamePassword) <==>
        r != Err(UserNotFound) && old(users)[userId].passwordHash.password == current == password
      ensures r.Ok? <==> userId in old(users) && MayChangePassword(old(users)[userId], current, password)
      ensures r.Err? ==> users == old(users) && sessions == old(sessions) && run == old(run)
      ensures r.Ok? ==>
        && run == Next(At(old(run), now), AuthRuns.ChangePassword(userId, current, password, keep))
        && users == old(users)[userId := old(users)[userId].(passwordHash := Bcrypt(password))]
        && sessions.Keys == old(sessions.Keys)
        && (forall i | i in sessions && sessions[i].userId == userId && sessions[i].revokedAt.None? ::
              keep == Some(sessions[i].tokenHash) && sessions[i] == old(sessions)[i])
        && (forall i | i in sessions && (sessions[i].userId != userId || keep == Some(sessions[i].tokenHash)) ::
              sessions[i] == old(sessions)[i])
    {
      if userId !in users || users[userId].deleted {
        return Err(UserNotFound);
      }
      if users[userId].passwordHash != Bcrypt(current) {
        return Err(WrongPassword);
      }
      if users[userId].passwordHash == Bcrypt(password) {
        return Err(SamePassword);
      }
      StorePassword(userId, current, password, keep, now);
      return Ok(());
    }

    /** The ids it lists, each with whether it is the caller's current session: the user's tickets that were
        issued and neither revoked since nor expired. */
    method ListSessions(userId: string, currentTokenHash: Option<TokenHash>, now: int)
      returns (listed: map<string, bool>)
      requires Valid()
      ensures listed.Keys == Usable(Alive(run.log), userId, None, now)
      ensures forall i :: i in listed <==>
        i in sessions && sessions[i].userId == userId && sessions[i].revokedAt.None? && sessions[i].expiresAt > now
      ensures forall i | i in listed ::
        i in sessions && (listed[i] <==> currentTokenHash == Some(sessions[i].tokenHash))
    {
      RowsAreTickets(start, trace, userId, None, now);
      listed := map i | i in sessions && i in UsableRows(sessions, userId, None, now)
        :: currentTokenHash.Some? && sessions[i].tokenHash == currentTokenHash.value;
    }

    method RevokeSession(userId: string, sessionId: string, now: int) returns (r: Result<(), AuthError>)
      requires Valid() && run.now <= now
      modifies this`sessions, this`run, this`trace
      ensures Valid() && run == Next(At(old(run), now), AuthRuns.RevokeSession(userId, sessionId))
      ensures r.Ok? <==>
        sessionId in old(sessions) && old(sessions)[sessionId].userId == userId
          && old(sessions)[sessionId].revokedAt.None?
      ensures r.Err? ==> sessions == old(sessions) && r.error == SessionNotFound
      ensures r.Ok? ==> sessions == old(sessions)[sessionId := old(sessions)[sessionId].(revokedAt := Some(now))]
    {
      Record(now, AuthRuns.RevokeSession(userId, sessionId));
      if sessionId !in sessions || sessions[sessionId].userId != userId || sessions[sessionId].revokedAt.Some? {
        return Err(SessionNotFound);
      }
      sessions := sessions[sessionId := sessions[sessionId].(revokedAt := Some(now))];
      return Ok(());
    }
  }
}
