/** Logins and deactivations side by side, split at every Redis round trip, under one rising clock. */
module TokenBlocklistRuns {
  import opened Clock
  import opened TtlCache
  import opened TokenBlocklist

  const LIFETIME: int := 86400

  /** An issued access token: the exp claim jwtService.sign put in it, and the exp that is tracked. */
  datatype Token = Token(userId: string, exp: int, trackedExp: int)

  datatype Pending =
    | Tracking(userId: string, jti: string, exp: int, ttl: int)          // before SETEX of trackToken
    | GotRecord(userId: string, jti: string, exp: int)                   // blockUserTokens after its GET
    | Blocking(userId: string, jti: string, exp: int, remaining: int)    // before its SETEX
    | Deleting(userId: string)                                           // before its DEL

  /** History: `latest` is the token last stored under each user's track key, `lost` the users whose key
      was deleted since, `covered` the tokens for which a block entry has been written. */
  datatype Sys = Sys(
    store: Store<CacheValue>,
    now: int,
    pending: map<nat, Pending>,
    tokens: map<string, Token>,
    latest: map<string, string>,
    lost: set<string>,
    covered: set<string>)

  datatype Step =
    | Tick(elapsed: nat)
    | Sign(op: nat, userId: string, jti: string, lifetime: int, toExp: nat, toTtl: nat)  // three clock readings
    | StoreTrack(op: nat)
    | ReadTrack(op: nat, userId: string)
    | Compute(op: nat)
    | StoreBlock(op: nat)
    | DeleteTrack(op: nat)

  function Init(now: int): Sys {
    Sys(map[], now, map[], map[], map[], {}, {})
  }

  function Finish(pending: map<nat, Pending>, op: nat): map<nat, Pending> {
    map i | i in pending && i != op :: pending[i]
  }

  // One function per round trip; one that is not enabled leaves the state alone.

  function DoSign(s: Sys, op: nat, userId: string, jti: string, lifetime: int, toExp: nat, toTtl: nat): Sys {
    if op in s.pending || jti in s.tokens then s
    else
      var exp := Seconds(s.now + toExp) + lifetime;
      var ttl := exp - Seconds(s.now + toExp + toTtl);
      s.(now := s.now + toExp + toTtl, tokens := s.tokens[jti := Token(userId, Seconds(s.now) + lifetime, exp)],
         pending := if ttl <= 0 then s.pending else s.pending[op := Tracking(userId, jti, exp, ttl)])
  }

  function DoStoreTrack(s: Sys, op: nat): Sys {
    if op in s.pending && s.pending[op].Tracking? then
      var p := s.pending[op];
      s.(store := Stored(s.store, TrackKey(p.userId), ActiveToken(p.jti, p.exp), p.ttl, s.now),
         latest := s.latest[p.userId := p.jti], lost := s.lost - {p.userId}, pending := Finish(s.pending, op))
    else s
  }

  function DoReadTrack(s: Sys, op: nat, userId: string): Sys {
    var record := Lookup(s.store, TrackKey(userId), s.now);
    if op in s.pending || record.None? || !record.value.ActiveToken? then s
    else s.(pending := s.pending[op := GotRecord(userId, record.value.jti, record.value.exp)])
  }

  function DoCompute(s: Sys, op: nat): Sys {
    if op in s.pending && s.pending[op].GotRecord? then
      var p := s.pending[op];
      var remaining := p.exp - Seconds(s.now);
      s.(pending := if remaining <= 0 then Finish(s.pending, op)
                    else s.pending[op := Blocking(p.userId, p.jti, p.exp, remaining)])
    else s
  }

  function DoStoreBlock(s: Sys, op: nat): Sys {
    if op in s.pending && s.pending[op].Blocking? then
      var p := s.pending[op];
      s.(store := Stored(s.store, BlockKey(p.jti), Blocked, p.remaining, s.now),
         covered := s.covered + {p.jti}, pending := s.pending[op := Deleting(p.userId)])
    else s
  }

  function DoDeleteTrack(s: Sys, op: nat): Sys {
    if op in s.pending && s.pending[op].Deleting? then
      var u := s.pending[op].userId;
      s.(store := Deleted(s.store, TrackKey(u)), lost := s.lost + {u}, pending := Finish(s.pending, op))
    else s
  }

  function Next(s: Sys, step: Step): Sys {
    match step
    case Tick(elapsed) => s.(now := s.now + elapsed)
    case Sign(op, userId, jti, lifetime, toExp, toTtl) => DoSign(s, op, userId, jti, lifetime, toExp, toTtl)
    case StoreTrack(op) => DoStoreTrack(s, op)
    case ReadTrack(op, userId) => DoReadTrack(s, op, userId)
    case Compute(op) => DoCompute(s, op)
    case StoreBlock(op) => DoStoreBlock(s, op)
    case DeleteTrack(op) => DoDeleteTrack(s, op)
  }

  function Run(s: Sys, steps: seq<Step>): Sys
    decreases |steps|
  {
    if steps == [] then s else Run(Next(s, steps[0]), steps[1..])
  }

  lemma RunCons(s: Sys, step: Step, rest: seq<Step>)
    ensures Run(s, [step] + rest) == Run(Next(s, step), rest)
  {
    assert ([step] + rest)[0] == step && ([step] + rest)[1..] == rest;
  }

  lemma {:induction false} RunJoin(s: Sys, a: seq<Step>, b: seq<Step>)
    ensures Run(s, a + b) == Run(Run(s, a), b)
    decreases |a|
  {
    if a == [] {
      assert a + b == b;
    } else {
      assert (a + b)[0] == a[0] && (a + b)[1..] == a[1..] + b;
      RunJoin(Next(s, a[0]), a[1..], b);
    }
  }

  lemma RunThenStep(s: Sys, a: seq<Step>, step: Step, b: seq<Step>)
    ensures Run(s, a + ([step] + b)) == Run(Next(Run(s, a), step), b)
  {
    RunJoin(s, a, [step] + b);
    RunCons(Run(s, a), step, b);
  }

  predicate IsBlocked(s: Sys, jti: string) {
    Live(s.store, BlockKey(jti), s.now)
  }

  /** The token would be accepted by JWT verification now. */
  predicate Accepted(s: Sys, jti: string) {
    jti in s.tokens && Unexpired(s.tokens[jti].exp, s.now)
  }

  // ---- The invariant. ----

  ghost predicate Known(s: Sys, jti: string, exp: int) {
    jti in s.tokens && s.tokens[jti].trackedExp == exp
  }

  ghost predicate PendingOk(s: Sys, p: Pending) {
    match p
    case Tracking(_, jti, exp, ttl) => Known(s, jti, exp) && ttl > 0 && s.now + 1000 * ttl >= 1000 * exp
    case GotRecord(_, jti, exp) => Known(s, jti, exp)
    case Blocking(_, jti, exp, remaining) => Known(s, jti, exp) && remaining > 0
      && s.now + 1000 * remaining >= 1000 * exp
    case Deleting(_) => true
  }

  /** The token tracked last for u is still on record: no DEL of its key ran since its SETEX. */
  predicate OnRecord(s: Sys, u: string) {
    u in s.latest && u !in s.lost
  }

  /** The track key of u holds exactly the token on record, long enough. */
  ghost predicate TrackOk(s: Sys, u: string) {
    && (u in s.latest ==> s.latest[u] in s.tokens)
    && (OnRecord(s, u) <==> TrackKey(u) in s.store)
    && (OnRecord(s, u) ==>
          && s.store[TrackKey(u)].value == ActiveToken(s.latest[u], s.tokens[s.latest[u]].trackedExp)
          && s.store[TrackKey(u)].expiresAt >= 1000 * s.tokens[s.latest[u]].trackedExp)
  }

  ghost predicate BlockOk(s: Sys, jti: string) {
    && (jti in s.covered <==> BlockKey(jti) in s.store)
    && (jti in s.covered ==> jti in s.tokens && s.store[BlockKey(jti)].expiresAt >= 1000 * s.tokens[jti].trackedExp)
  }

  ghost predicate Inv(s: Sys) {
    && (forall j | j in s.tokens :: s.tokens[j].exp <= s.tokens[j].trackedExp)
    && (forall op | op in s.pending :: PendingOk(s, s.pending[op]))
    && (forall u :: TrackOk(s, u))
    && (forall jti :: BlockOk(s, jti))
  }

  /** Time passes, block entries are only added, and tokens keep their expiry. */
  ghost predicate Grows(s: Sys, s': Sys) {
    && s.covered <= s'.covered && s.now <= s'.now
    && forall j | j in s.tokens :: j in s'.tokens && s'.tokens[j] == s.tokens[j]
  }

  lemma NextGrows(s: Sys, step: Step)
    ensures Grows(s, Next(s, step))
  {
  }

  lemma PendingKept(s: Sys, s': Sys, p: Pending)
    requires PendingOk(s, p) && Grows(s, s')
    ensures PendingOk(s', p)
  {
  }

  lemma ReadPendingOk(s: Sys, op: nat, u: string)
    requires TrackOk(s, u) && DoReadTrack(s, op, u) != s
    ensures PendingOk(DoReadTrack(s, op, u), DoReadTrack(s, op, u).pending[op])
  {
  }

  lemma ComputedPendingOk(s: Sys, op: nat)
    requires op in s.pending && PendingOk(s, s.pending[op]) && op in DoCompute(s, op).pending
    ensures PendingOk(DoCompute(s, op), DoCompute(s, op).pending[op])
  {
  }

  lemma SignedPendingOk(s: Sys, step: Step)
    requires step.Sign? && step.op !in s.pending && step.op in Next(s, step).pending
    ensures PendingOk(Next(s, step), Next(s, step).pending[step.op])
  {
  }

  lemma OthersPendingKept(s: Sys, step: Step, op: nat)
    requires op in Next(s, step).pending && (step.Tick? || step.op != op || step.StoreTrack? || step.DeleteTrack?)
    ensures op in s.pending && Next(s, step).pending[op] == s.pending[op]
  {
  }

  lemma NextPendingOk(s: Sys, step: Step, op: nat)
    requires Inv(s) && op in Next(s, step).pending
    ensures PendingOk(Next(s, step), Next(s, step).pending[op])
  {
    assert op in s.pending ==> PendingOk(s, s.pending[op]);
    if op in s.pending && Next(s, step).pending[op] == s.pending[op] {
      NextGrows(s, step);
      PendingKept(s, Next(s, step), s.pending[op]);
    } else if step.Tick? || step.op != op || step.StoreTrack? || step.DeleteTrack? {
      OthersPendingKept(s, step, op);
    } else if step.ReadTrack? {
      ReadPendingOk(s, op, step.userId);
    } else if step.Compute? {
      ComputedPendingOk(s, op);
    } else if step.Sign? {
      SignedPendingOk(s, step);
    }
  }

  lemma NextTrackOk(s: Sys, step: Step, u: string)
    requires Inv(s)
    ensures TrackOk(Next(s, step), u)
  {
    assert TrackOk(s, u);
    match step
    case StoreTrack(op) =>
      if op in s.pending && s.pending[op].Tracking? {
        assert PendingOk(s, s.pending[op]);
        KeysDistinct(u, s.pending[op].userId);
      }
    case StoreBlock(op) =>
      if op in s.pending && s.pending[op].Blocking? { KeysDistinct(u, s.pending[op].jti); }
    case DeleteTrack(op) =>
      if op in s.pending && s.pending[op].Deleting? { KeysDistinct(u, s.pending[op].userId); }
    case _ =>
  }

  lemma NextBlockOk(s: Sys, step: Step, jti: string)
    requires Inv(s)
    ensures BlockOk(Next(s, step), jti)
  {
    assert BlockOk(s, jti);
    match step
    case StoreTrack(op) =>
      if op in s.pending && s.pending[op].Tracking? { KeysDistinct(s.pending[op].userId, jti); }
    case StoreBlock(op) =>
      if op in s.pending && s.pending[op].Blocking? {
        assert PendingOk(s, s.pending[op]);
        KeysDistinct(jti, s.pending[op].jti);
      }
    case DeleteTrack(op) =>
      if op in s.pending && s.pending[op].Deleting? { KeysDistinct(s.pending[op].userId, jti); }
    case _ =>
  }

  lemma NextInv(s: Sys, step: Step)
    requires Inv(s)
    ensures Inv(Next(s, step))
  {
    var s' := Next(s, step);
    forall op | op in s'.pending ensures PendingOk(s', s'.pending[op]) { NextPendingOk(s, step, op); }
    forall u ensures TrackOk(s', u) { NextTrackOk(s, step, u); }
    forall jti ensures BlockOk(s', jti) { NextBlockOk(s, step, jti); }
  }

  lemma {:induction false} RunInv(s: Sys, steps: seq<Step>)
    requires Inv(s)
    ensures Inv(Run(s, steps)) && Grows(s, Run(s, steps))
    decreases |steps|
  {
    if steps != [] {
      NextInv(s, steps[0]);
      NextGrows(s, steps[0]);
      RunInv(Next(s, steps[0]), steps[1..]);
    }
  }

  // ---- Coverage. ----

  /** In every reachable state, an unexpired token is rejected exactly when a block entry was written for it. */
  lemma RejectedExactlyWhenCovered(now: int, steps: seq<Step>, jti: string)
    requires Accepted(Run(Init(now), steps), jti)
    ensures IsBlocked(Run(Init(now), steps), jti) <==> jti in Run(Init(now), steps).covered
  {
    InitInv(now);
    RunInv(Init(now), steps);
    assert BlockOk(Run(Init(now), steps), jti);
  }

  lemma InitInv(now: int)
    ensures Inv(Init(now))
  {
  }

  ghost predicate Spares(steps: seq<Step>, op: nat) {
    forall i | 0 <= i < |steps| :: steps[i].Tick? || steps[i].op != op
  }

  lemma {:induction false} PendingSurvives(s: Sys, steps: seq<Step>, op: nat)
    requires op in s.pending && Spares(steps, op)
    ensures op in Run(s, steps).pending && Run(s, steps).pending[op] == s.pending[op]
    decreases |steps|
  {
    if steps != [] {
      assert steps[0].Tick? || steps[0].op != op;
      PendingSurvives(Next(s, steps[0]), steps[1..], op);
    }
  }

  /** From its write onwards, the token that was read is blocked. */
  lemma BlockedFromItsWriteOn(s: Sys, op: nat, jti: string, between: seq<Step>, after: seq<Step>)
    requires Inv(s) && op in s.pending && s.pending[op].Blocking? && s.pending[op].jti == jti && Spares(between, op)
    ensures var final := Run(Next(Run(s, between), StoreBlock(op)), after);
      Accepted(final, jti) ==> IsBlocked(final, jti)
  {
    RunInv(s, between);
    PendingSurvives(s, between, op);
    var s' := Next(Run(s, between), StoreBlock(op));
    NextInv(Run(s, between), StoreBlock(op));
    RunInv(s', after);
    assert jti in s'.covered && BlockOk(Run(s', after), jti);
  }

  /** A token that expires before its remaining time is computed stays expired. */
  lemma ExpiredStays(s: Sys, jti: string, steps: seq<Step>)
    requires Inv(s) && jti in s.tokens && !Unexpired(s.tokens[jti].trackedExp, s.now)
    ensures !Accepted(Run(s, steps), jti)
  {
    RunInv(s, steps);
    assert s.tokens[jti].exp <= s.tokens[jti].trackedExp;
  }

  lemma GetFindsTheLatest(s: Sys, op: nat, u: string)
    requires Inv(s) && op !in s.pending && OnRecord(s, u) && Accepted(s, s.latest[u])
    ensures var s1 := Next(s, ReadTrack(op, u));
      op in s1.pending && s1.pending[op] == GotRecord(u, s.latest[u], s.tokens[s.latest[u]].trackedExp)
  {
    assert TrackOk(s, u);
  }

  /** Deactivation is effective: take the token last tracked for u, still unexpired and on record when
      blockUserTokens looks it up. Whatever runs between its round trips and afterwards, from its write
      onwards the token is either expired or rejected. */
  lemma LatestTokenIsBlockedUntilItExpires(
      now: int, before: seq<Step>, op: nat, u: string, between: seq<Step>, between': seq<Step>, after: seq<Step>)
    requires var s := Run(Init(now), before);
      op !in s.pending && OnRecord(s, u) && Accepted(s, s.latest[u])
    requires Spares(between, op) && Spares(between', op)
    ensures var s := Run(Init(now), before);
      var computed := Next(Run(Next(s, ReadTrack(op, u)), between), Compute(op));
      var final := Run(Next(Run(computed, between'), StoreBlock(op)), after);
      Accepted(final, s.latest[u]) ==> IsBlocked(final, s.latest[u])
  {
    var s := Run(Init(now), before);
    InitInv(now);
    RunInv(Init(now), before);
    GetFindsTheLatest(s, op, u);
    NextInv(s, ReadTrack(op, u));
    BlockedAfterGet(Next(s, ReadTrack(op, u)), op, s.latest[u], between, between', after);
  }

  lemma BlockedAfterGet(s: Sys, op: nat, jti: string, between: seq<Step>, between': seq<Step>, after: seq<Step>)
    requires Inv(s) && op in s.pending && s.pending[op].GotRecord? && s.pending[op].jti == jti
    requires Spares(between, op) && Spares(between', op)
    ensures var computed := Next(Run(s, between), Compute(op));
      var final := Run(Next(Run(computed, between'), StoreBlock(op)), after);
      Accepted(final, jti) ==> IsBlocked(final, jti)
  {
    assert PendingOk(s, s.pending[op]);
    RunInv(s, between);
    PendingSurvives(s, between, op);
    var s2 := Run(s, between);
    NextInv(s2, Compute(op));
    if Unexpired(s.pending[op].exp, s2.now) {
      BlockedFromItsWriteOn(Next(s2, Compute(op)), op, jti, between', after);
    } else {
      RunThenStep(Next(s2, Compute(op)), between', StoreBlock(op), after);
      ExpiredStays(Next(s2, Compute(op)), jti, between' + ([StoreBlock(op)] + after));
    }
  }

  /** The four round trips of blockUserTokens with nothing in between. */
  function BlockUserTokens(s: Sys, op: nat, u: string): Sys {
    Next(Next(Next(Next(s, ReadTrack(op, u)), Compute(op)), StoreBlock(op)), DeleteTrack(op))
  }

  lemma NothingTracked(s: Sys, op: nat, u: string)
    requires op !in s.pending && Next(s, ReadTrack(op, u)) == s
    ensures BlockUserTokens(s, op, u) == s
  {
  }

  lemma RecordTracked(s: Sys, op: nat, u: string, jti: string, exp: int)
    requires Inv(s) && op !in s.pending
    requires Next(s, ReadTrack(op, u)) == s.(pending := s.pending[op := GotRecord(u, jti, exp)])
    ensures var t := BlockUserTokens(s, op, u);
      && t.now == s.now && t.tokens == s.tokens
      && t.covered == s.covered + if Unexpired(exp, s.now) then {jti} else {}
  {
    var s1 := Next(s, ReadTrack(op, u));
    var s2 := Next(s1, Compute(op));
    if Unexpired(exp, s.now) {
      assert s2.pending[op] == Blocking(u, jti, exp, exp - Seconds(s.now));
      assert Next(s2, StoreBlock(op)).pending[op] == Deleting(u);
    } else {
      assert op !in s2.pending;
    }
  }

  lemma BlockUserTokensInv(s: Sys, op: nat, u: string)
    requires Inv(s)
    ensures Inv(BlockUserTokens(s, op, u))
  {
    NextInv(s, ReadTrack(op, u));
    NextInv(Next(s, ReadTrack(op, u)), Compute(op));
    NextInv(Next(Next(s, ReadTrack(op, u)), Compute(op)), StoreBlock(op));
    NextInv(Next(Next(Next(s, ReadTrack(op, u)), Compute(op)), StoreBlock(op)), DeleteTrack(op));
  }

  /** Run to its end at one instant, blockUserTokens rejects, of all unexpired tokens, exactly the one on
      record for the user besides those already rejected. Earlier sessions stay accepted. */
  lemma BlocksExactlyTheOneOnRecord(now: int, before: seq<Step>, op: nat, u: string, jti: string)
    requires op !in Run(Init(now), before).pending && Accepted(Run(Init(now), before), jti)
    ensures var s := Run(Init(now), before);
      IsBlocked(BlockUserTokens(s, op, u), jti) <==> IsBlocked(s, jti) || (OnRecord(s, u) && s.latest[u] == jti)
  {
    var s := Run(Init(now), before);
    InitInv(now);
    RunInv(Init(now), before);
    assert TrackOk(s, u) && BlockOk(s, jti);
    BlockUserTokensInv(s, op, u);
    assert BlockOk(BlockUserTokens(s, op, u), jti);
    if OnRecord(s, u) && Live(s.store, TrackKey(u), s.now) {
      RecordTracked(s, op, u, s.latest[u], s.tokens[s.latest[u]].trackedExp);
    } else {
      NothingTracked(s, op, u);
    }
  }

  /** The user's latest token, if still unexpired, is rejected after blockUserTokens exactly when it was
      already, or no DEL of the user's track key ran since the token was stored there. */
  lemma LatestIsRejectedExactlyWhen(now: int, before: seq<Step>, op: nat, u: string)
    requires var s := Run(Init(now), before);
      op !in s.pending && u in s.latest && Accepted(s, s.latest[u])
    ensures var s := Run(Init(now), before);
      IsBlocked(BlockUserTokens(s, op, u), s.latest[u]) <==> s.latest[u] in s.covered || u !in s.lost
  {
    BlocksExactlyTheOneOnRecord(now, before, op, u, Run(Init(now), before).latest[u]);
    RejectedExactlyWhenCovered(now, before, Run(Init(now), before).latest[u]);
  }

  // ---- A DEL can hit the record of a newer token. ----

  /** While a first token is being blocked the user logs in again; the pending DEL then removes the new
      token's record, and a further blockUserTokens finds nothing: the new token stays accepted. */
  function DelayedDelete(u: string, first: string, second: string): seq<Step> {
    FirstLogin(u, first) + SecondLogin(u, second)
  }

  function FirstLogin(u: string, jti: string): seq<Step> {
    [Sign(0, u, jti, LIFETIME, 0, 0), StoreTrack(0), ReadTrack(1, u), Compute(1), StoreBlock(1)]
  }

  function SecondLogin(u: string, jti: string): seq<Step> {
    [Sign(2, u, jti, LIFETIME, 0, 0), StoreTrack(2), DeleteTrack(1)]
  }

  lemma RunThree(s: Sys, a: Step, b: Step, c: Step)
    ensures Run(s, [a, b, c]) == Next(Next(Next(s, a), b), c)
  {
    assert [a, b, c] == [a] + ([b] + ([c] + []));
    RunCons(s, a, [b] + ([c] + []));
    RunCons(Next(s, a), b, [c] + []);
    RunCons(Next(Next(s, a), b), c, []);
  }

  lemma RunFive(s: Sys, a: Step, b: Step, c: Step, d: Step, e: Step)
    ensures Run(s, [a, b, c, d, e]) == Next(Next(Next(Next(Next(s, a), b), c), d), e)
  {
    assert [a, b, c, d, e] == [a] + ([b] + [c, d, e]);
    RunCons(s, a, [b] + [c, d, e]);
    RunCons(Next(s, a), b, [c, d, e]);
    RunThree(Next(Next(s, a), b), c, d, e);
  }

  lemma FirstLoginRun(now: int, u: string, jti: string)
    ensures var s := Run(Init(now), FirstLogin(u, jti));
      s.now == now && s.pending == map[1 := Deleting(u)] && s.tokens.Keys == {jti}
  {
    RunFive(Init(now), Sign(0, u, jti, LIFETIME, 0, 0), StoreTrack(0), ReadTrack(1, u), Compute(1), StoreBlock(1));
    FirstTokenBlocked(now, u, jti);
  }

  lemma FirstTokenBlocked(now: int, u: string, jti: string)
    ensures var s2 := Next(Next(Init(now), Sign(0, u, jti, LIFETIME, 0, 0)), StoreTrack(0));
      var s := Next(Next(Next(s2, ReadTrack(1, u)), Compute(1)), StoreBlock(1));
      s.now == now && s.pending == map[1 := Deleting(u)] && s.tokens.Keys == {jti}
  {
    var exp := Seconds(now) + LIFETIME;
    var s1 := Next(Init(now), Sign(0, u, jti, LIFETIME, 0, 0));
    assert s1.pending == map[0 := Tracking(u, jti, exp, LIFETIME)];
    var s2 := Next(s1, StoreTrack(0));
    assert s2.pending == map[];
    var s3 := Next(s2, ReadTrack(1, u));
    assert s3.pending == map[1 := GotRecord(u, jti, exp)];
    var s4 := Next(s3, Compute(1));
    assert s4.pending == map[1 := Blocking(u, jti, exp, LIFETIME)];
  }

  /** The token is the user's latest, and its record is gone. */
  ghost predicate Lost(s: Sys, u: string, jti: string) {
    && s.pending == map[] && TrackKey(u) !in s.store && u in s.latest && s.latest[u] == jti
    && jti in s.tokens && s.tokens[jti].exp == Seconds(s.now) + LIFETIME
  }

  lemma SecondTokenLost(s: Sys, u: string, jti: string)
    requires s.pending == map[1 := Deleting(u)] && jti !in s.tokens
    ensures var t := Next(Next(Next(s, Sign(2, u, jti, LIFETIME, 0, 0)), StoreTrack(2)), DeleteTrack(1));
      Lost(t, u, jti) && t.covered == s.covered
  {
    var exp := Seconds(s.now) + LIFETIME;
    var s1 := Next(s, Sign(2, u, jti, LIFETIME, 0, 0));
    assert s1.pending == map[1 := Deleting(u), 2 := Tracking(u, jti, exp, LIFETIME)];
    var s2 := Next(s1, StoreTrack(2));
    assert s2.pending == map[1 := Deleting(u)];
  }

  lemma SecondLoginRun(s: Sys, u: string, jti: string)
    requires s.pending == map[1 := Deleting(u)] && jti !in s.tokens
    ensures Lost(Run(s, SecondLogin(u, jti)), u, jti) && Run(s, SecondLogin(u, jti)).covered == s.covered
  {
    RunThree(s, Sign(2, u, jti, LIFETIME, 0, 0), StoreTrack(2), DeleteTrack(1));
    SecondTokenLost(s, u, jti);
  }

  lemma DelayedDeleteSparesTheLatest(now: int, u: string, first: string, second: string)
    requires first != second
    ensures var s := Run(Init(now), DelayedDelete(u, first, second));
      && s.pending == map[] && u in s.latest && s.latest[u] == second && Accepted(s, second)
      && BlockUserTokens(s, 3, u) == s && !IsBlocked(s, second)
  {
    var mid := Run(Init(now), FirstLogin(u, first));
    FirstLoginRun(now, u, first);
    SecondLoginRun(mid, u, second);
    RunJoin(Init(now), FirstLogin(u, first), SecondLogin(u, second));
    var s := Run(Init(now), DelayedDelete(u, first, second));
    NothingTracked(s, 3, u);
    InitInv(now);
    RunInv(Init(now), FirstLogin(u, first));
    assert BlockOk(mid, second);
    RejectedExactlyWhenCovered(now, DelayedDelete(u, first, second), second);
  }

  // ---- It cannot, if no blockUserTokens for the user is past its GET when the token is stored. ----

  predicate BlocksFor(p: Pending, u: string) {
    !p.Tracking? && p.userId == u
  }

  /** The token being stored by `op` is stored while nothing is about to delete the user's record. */
  ghost predicate StoredUndisturbed(s: Sys, op: nat) {
    && op in s.pending && s.pending[op].Tracking?
    && forall i | i in s.pending :: !BlocksFor(s.pending[i], s.pending[op].userId)
  }

  /** A pending blockUserTokens for u works on jti, and has blocked it before it deletes. */
  ghost predicate WorksOn(s: Sys, p: Pending, u: string, jti: string) {
    BlocksFor(p, u) ==>
      match p
      case GotRecord(_, j, _) => j == jti
      case Blocking(_, j, _, _) => j == jti
      case _ => jti in s.covered
  }

  /** As long as jti is the user's latest token, its record is deleted only after it is blocked. */
  ghost predicate Guarded(s: Sys, u: string, jti: string) {
    && jti in s.tokens
    && (forall i | i in s.pending && s.pending[i].Tracking? :: s.pending[i].jti != jti)
    && (u in s.latest && s.latest[u] == jti ==>
          && (u in s.lost ==> jti in s.covered)
          && forall i | i in s.pending :: WorksOn(s, s.pending[i], u, jti))
  }

  /** Two signings never share a jti, so no pending SETEX carries a token that is already stored. */
  ghost predicate JtisApart(s: Sys) {
    && (forall i | i in s.pending && s.pending[i].Tracking? :: s.pending[i].jti in s.tokens)
    && (forall i, j | i in s.pending && j in s.pending && s.pending[i].Tracking? && s.pending[j].Tracking?
          && s.pending[i].jti == s.pending[j].jti :: i == j)
  }

  lemma {:induction false} RunJtisApart(s: Sys, steps: seq<Step>)
    requires JtisApart(s)
    ensures JtisApart(Run(s, steps))
    decreases |steps|
  {
    if steps != [] {
      NextJtisApart(s, steps[0]);
      RunJtisApart(Next(s, steps[0]), steps[1..]);
    }
  }

  lemma NextJtisApart(s: Sys, step: Step)
    requires JtisApart(s)
    ensures JtisApart(Next(s, step))
  {
  }

  lemma NoNewTracking(s: Sys, step: Step, u: string, jti: string)
    requires Guarded(s, u, jti)
    ensures jti in Next(s, step).tokens
    ensures forall i | i in Next(s, step).pending && Next(s, step).pending[i].Tracking? ::
      Next(s, step).pending[i].jti != jti
    ensures u in Next(s, step).latest && Next(s, step).latest[u] == jti ==> u in s.latest && s.latest[u] == jti
  {
  }

  lemma LostOnlyWhenCovered(s: Sys, step: Step, u: string, jti: string)
    requires Guarded(s, u, jti) && u in s.latest && s.latest[u] == jti && u in Next(s, step).lost
    ensures jti in Next(s, step).covered
  {
    NextGrows(s, step);
    if u !in s.lost {
      assert WorksOn(s, s.pending[step.op], u, jti);
    }
  }

  lemma NextGuarded(s: Sys, step: Step, u: string, jti: string)
    requires Inv(s) && Guarded(s, u, jti)
    ensures Guarded(Next(s, step), u, jti)
  {
    var s' := Next(s, step);
    NoNewTracking(s, step, u, jti);
    if u in s'.latest && s'.latest[u] == jti {
      forall i | i in s'.pending ensures WorksOn(s', s'.pending[i], u, jti) {
        NextWorksOn(s, step, u, jti, i);
      }
      if u in s'.lost {
        LostOnlyWhenCovered(s, step, u, jti);
      }
    }
  }

  lemma NextWorksOn(s: Sys, step: Step, u: string, jti: string, i: nat)
    requires Inv(s) && Guarded(s, u, jti) && i in Next(s, step).pending && u in s.latest && s.latest[u] == jti
    ensures WorksOn(Next(s, step), Next(s, step).pending[i], u, jti)
  {
    assert TrackOk(s, u);
    if i in s.pending {
      assert WorksOn(s, s.pending[i], u, jti);
    }
  }

  lemma {:induction false} RunGuarded(s: Sys, steps: seq<Step>, u: string, jti: string)
    requires Inv(s) && Guarded(s, u, jti)
    ensures Guarded(Run(s, steps), u, jti)
    decreases |steps|
  {
    if steps != [] {
      NextInv(s, steps[0]);
      NextGuarded(s, steps[0], u, jti);
      RunGuarded(Next(s, steps[0]), steps[1..], u, jti);
    }
  }

  /** A token stored while no blockUserTokens for its user is past its GET: whatever runs afterwards, as
      long as it is the user's latest and unexpired, a further blockUserTokens leaves it rejected. */
  lemma UndisturbedTokenCanBeBlocked(now: int, before: seq<Step>, op: nat, after: seq<Step>, op': nat)
    requires var s := Run(Init(now), before); StoredUndisturbed(s, op)
    requires var s := Run(Init(now), before);
      var u, jti, t := s.pending[op].userId, s.pending[op].jti, Run(Next(s, StoreTrack(op)), after);
      op' !in t.pending && u in t.latest && t.latest[u] == jti && Accepted(t, jti)
    ensures var s := Run(Init(now), before);
      var u, jti, t := s.pending[op].userId, s.pending[op].jti, Run(Next(s, StoreTrack(op)), after);
      IsBlocked(BlockUserTokens(t, op', u), jti)
  {
    var s := Run(Init(now), before);
    var u, jti := s.pending[op].userId, s.pending[op].jti;
    InitInv(now);
    RunInv(Init(now), before);
    RunJtisApart(Init(now), before);
    NextInv(s, StoreTrack(op));
    RunGuarded(Next(s, StoreTrack(op)), after, u, jti);
    RunJoin(Init(now), before, [StoreTrack(op)] + after);
    assert ([StoreTrack(op)] + after)[1..] == after;
    LatestIsRejectedExactlyWhen(now, before + ([StoreTrack(op)] + after), op', u);
  }

  /** Once written, the block entry stays until the token expires, whatever else happens. */
  lemma BlockIsPermanent(now: int, before: seq<Step>, after: seq<Step>, jti: string)
    requires jti in Run(Init(now), before).covered
    ensures var t := Run(Run(Init(now), before), after);
      Accepted(t, jti) ==> IsBlocked(t, jti)
  {
    InitInv(now);
    RunInv(Init(now), before);
    RunInv(Run(Init(now), before), after);
    assert BlockOk(Run(Run(Init(now), before), after), jti);
  }
}
