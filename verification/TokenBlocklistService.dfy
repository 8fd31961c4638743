/** token-blocklist.service.ts over the cache. The ghost `run` is the interleaving machine's state; each
    method is the run of its own round trips with nothing in between. */
module TokenBlocklistService {
  import opened Wrappers
  import opened Clock
  import opened TtlCache
  import opened TokenBlocklist
  import opened TokenBlocklistRuns

  /** A token is signed, its exp claim computed and its time to live computed, at three clock readings. */
  function Signed(s: Sys, op: nat, userId: string, jti: string, exp: int, signedAt: nat, expAt: nat, ttlAt: nat): Sys
    requires s.now <= signedAt <= expAt <= ttlAt
  {
    Next(Next(s, Tick(signedAt - s.now)), Sign(op, userId, jti, exp - Seconds(expAt), expAt - signedAt, ttlAt - expAt))
  }

  /** Then its record is stored. */
  function Tracked(s: Sys, op: nat, userId: string, jti: string, exp: int, signedAt: nat, expAt: nat, ttlAt: nat,
                   storedAt: nat): Sys
    requires s.now <= signedAt <= expAt <= ttlAt <= storedAt
  {
    Next(Next(Signed(s, op, userId, jti, exp, signedAt, expAt, ttlAt), Tick(storedAt - ttlAt)), StoreTrack(op))
  }

  /** blockUserTokens up to its first write: the lookup and the computation of the remaining time. */
  function LookedUp(s: Sys, op: nat, userId: string, readAt: nat): Sys
    requires s.now <= readAt
  {
    Next(Next(s, Tick(readAt - s.now)), ReadTrack(op, userId))
  }

  function ReadyToBlock(s: Sys, op: nat, userId: string, readAt: nat, computedAt: nat, storedAt: nat): Sys
    requires s.now <= readAt <= computedAt <= storedAt
  {
    var computed := Next(Next(LookedUp(s, op, userId, readAt), Tick(computedAt - readAt)), Compute(op));
    Next(computed, Tick(storedAt - computedAt))
  }

  /** The whole of blockUserTokens, with its two writes. */
  function BlockedBy(s: Sys, op: nat, userId: string, readAt: nat, computedAt: nat, storedAt: nat): Sys
    requires s.now <= readAt <= computedAt <= storedAt
  {
    Next(Next(ReadyToBlock(s, op, userId, readAt, computedAt, storedAt), StoreBlock(op)), DeleteTrack(op))
  }

  lemma SignedStore(s: Sys, op: nat, userId: string, jti: string, exp: int, signedAt: nat, expAt: nat, ttlAt: nat)
    requires s.now <= signedAt <= expAt <= ttlAt && op !in s.pending && jti !in s.tokens
    ensures var t := Signed(s, op, userId, jti, exp, signedAt, expAt, ttlAt);
      && t.store == s.store && t.now == ttlAt
      && (Unexpired(exp, ttlAt) <==> op in t.pending)
      && (op in t.pending ==> t.pending[op] == Tracking(userId, jti, exp, exp - Seconds(ttlAt)))
  {
  }

  lemma TrackedStore(s: Sys, op: nat, userId: string, jti: string, exp: int, signedAt: nat, expAt: nat, ttlAt: nat,
                     storedAt: nat)
    requires s.now <= signedAt <= expAt <= ttlAt <= storedAt && op !in s.pending && jti !in s.tokens
    ensures Tracked(s, op, userId, jti, exp, signedAt, expAt, ttlAt, storedAt).store
        == Stored(s.store, TrackKey(userId), ActiveToken(jti, exp), exp - Seconds(ttlAt), storedAt)
  {
    SignedStore(s, op, userId, jti, exp, signedAt, expAt, ttlAt);
  }

  /** The theorems about runs apply to this state. */
  ghost predicate Reached(s: Sys) {
    exists start, steps :: s == Run(Init(start), steps)
  }

  lemma ReachedNext(s: Sys, step: Step)
    requires Reached(s)
    ensures Reached(Next(s, step))
  {
    var start, steps :| s == Run(Init(start), steps);
    RunJoin(Init(start), steps, [step]);
    assert Run(s, [step]) == Next(s, step) by { assert [step][1..] == []; }
  }

  lemma TrackedReached(s: Sys, op: nat, userId: string, jti: string, exp: int, signedAt: nat, expAt: nat, ttlAt: nat,
                       storedAt: nat)
    requires Reached(s) && s.now <= signedAt <= expAt <= ttlAt <= storedAt
    ensures Reached(Tracked(s, op, userId, jti, exp, signedAt, expAt, ttlAt, storedAt))
  {
    ReachedNext(s, Tick(signedAt - s.now));
    var lifetime := exp - Seconds(expAt);
    ReachedNext(Next(s, Tick(signedAt - s.now)), Sign(op, userId, jti, lifetime, expAt - signedAt, ttlAt - expAt));
    var t := Signed(s, op, userId, jti, exp, signedAt, expAt, ttlAt);
    ReachedNext(t, Tick(storedAt - ttlAt));
    ReachedNext(Next(t, Tick(storedAt - ttlAt)), StoreTrack(op));
  }

  /** What blockUserTokens finds to block: the record, if it is live when read and time remains later. */
  function ToBlock(store: Store<CacheValue>, userId: string, readAt: int, computedAt: int): Option<(string, int)> {
    var record := Lookup(store, TrackKey(userId), readAt);
    if record.None? || !record.value.ActiveToken? || !Unexpired(record.value.exp, computedAt) then None
    else Some((record.value.jti, record.value.exp))
  }

  /** The store after blockUserTokens. */
  function BlockedStore(store: Store<CacheValue>, userId: string, readAt: int, computedAt: int, storedAt: int)
      : Store<CacheValue>
  {
    var found := ToBlock(store, userId, readAt, computedAt);
    if found.None? then store
    else
      var (jti, exp) := found.value;
      Deleted(Stored(store, BlockKey(jti), Blocked, exp - Seconds(computedAt), storedAt), TrackKey(userId))
  }

  /** Only the two keys change: the token is blocked until its exp, less than a second longer if computed
      and stored at one instant, and its record goes. */
  lemma BlockedStoreMeaning(store: Store<CacheValue>, userId: string, readAt: int, computedAt: int, storedAt: int)
    requires readAt <= computedAt <= storedAt && ToBlock(store, userId, readAt, computedAt).Some?
    ensures var (jti, exp) := ToBlock(store, userId, readAt, computedAt).value;
      var after := BlockedStore(store, userId, readAt, computedAt, storedAt);
      && TrackKey(userId) !in after && BlockKey(jti) in after && after[BlockKey(jti)].expiresAt >= 1000 * exp
      && (computedAt == storedAt ==> after[BlockKey(jti)].expiresAt < 1000 * exp + 1000)
      && forall k | k != TrackKey(userId) && k != BlockKey(jti) ::
           (k in after <==> k in store) && (k in after ==> after[k] == store[k])
  {
    var (jti, exp) := ToBlock(store, userId, readAt, computedAt).value;
    EntryOutlivesExp(exp, computedAt, storedAt);
    KeysDistinct(userId, jti);
  }

  /** blockUserTokens has computed what remains, and waits to write it. */
  ghost predicate Computed(s: Sys, op: nat, userId: string, found: Option<(string, int)>, computedAt: int) {
    if found.None? then op !in s.pending
    else
      && op in s.pending
      && s.pending[op] == Blocking(userId, found.value.0, found.value.1, found.value.1 - Seconds(computedAt))
  }

  lemma LookedUpStore(s: Sys, op: nat, userId: string, readAt: nat)
    requires s.now <= readAt && op !in s.pending
    ensures var record := Lookup(s.store, TrackKey(userId), readAt);
      var t := LookedUp(s, op, userId, readAt);
      && t.store == s.store && t.now == readAt
      && (op in t.pending <==> record.Some? && record.value.ActiveToken?)
      && (op in t.pending ==> t.pending[op] == GotRecord(userId, record.value.jti, record.value.exp))
  {
  }

  lemma ReadyStore(s: Sys, op: nat, userId: string, readAt: nat, computedAt: nat, storedAt: nat)
    requires s.now <= readAt <= computedAt <= storedAt && op !in s.pending
    ensures var t := ReadyToBlock(s, op, userId, readAt, computedAt, storedAt);
      && t.store == s.store && t.now == storedAt
      && Computed(t, op, userId, ToBlock(s.store, userId, readAt, computedAt), computedAt)
  {
    LookedUpStore(s, op, userId, readAt);
  }

  lemma WrittenStore(t: Sys, op: nat, userId: string, found: Option<(string, int)>, computedAt: int)
    requires Computed(t, op, userId, found, computedAt)
    ensures Next(Next(t, StoreBlock(op)), DeleteTrack(op)).store ==
      if found.None? then t.store
      else Deleted(Stored(t.store, BlockKey(found.value.0), Blocked, found.value.1 - Seconds(computedAt), t.now),
        TrackKey(userId))
  {
  }

  lemma BlockedByStore(s: Sys, op: nat, userId: string, readAt: nat, computedAt: nat, storedAt: nat)
    requires s.now <= readAt <= computedAt <= storedAt && op !in s.pending
    ensures BlockedBy(s, op, userId, readAt, computedAt, storedAt).store
         == BlockedStore(s.store, userId, readAt, computedAt, storedAt)
  {
    ReadyStore(s, op, userId, readAt, computedAt, storedAt);
    var t := ReadyToBlock(s, op, userId, readAt, computedAt, storedAt);
    WrittenStore(t, op, userId, ToBlock(s.store, userId, readAt, computedAt), computedAt);
  }

  lemma BlockedByReached(s: Sys, op: nat, userId: string, readAt: nat, computedAt: nat, storedAt: nat)
    requires Reached(s) && s.now <= readAt <= computedAt <= storedAt
    ensures Reached(BlockedBy(s, op, userId, readAt, computedAt, storedAt))
  {
    ReachedNext(s, Tick(readAt - s.now));
    ReachedNext(Next(s, Tick(readAt - s.now)), ReadTrack(op, userId));
    var t := LookedUp(s, op, userId, readAt);
    ReachedNext(t, Tick(computedAt - readAt));
    ReachedNext(Next(t, Tick(computedAt - readAt)), Compute(op));
    ReachedNext(Next(Next(t, Tick(computedAt - readAt)), Compute(op)), Tick(storedAt - computedAt));
    var u := ReadyToBlock(s, op, userId, readAt, computedAt, storedAt);
    ReachedNext(u, StoreBlock(op));
    ReachedNext(Next(u, StoreBlock(op)), DeleteTrack(op));
  }

  class TokenBlocklistService {
    const cache: CacheService<CacheValue>
    ghost var run: Sys

    /** The cache is the store of a reachable state. */
    ghost predicate Valid()
      reads this, cache
    {
      run.store == cache.store && Reached(run)
    }

    constructor (cache: CacheService<CacheValue>, now: int)
      requires cache.store == map[]
      ensures Valid() && this.cache == cache && run == Init(now)
    {
      this.cache := cache;
      run := Init(now);
      new;
      assert run == Run(Init(now), []);
    }

    /** trackToken for a token signed at `signedAt`, whose exp the caller computed at `expAt`. */
    method TrackToken(userId: string, jti: string, exp: int, ghost op: nat, ghost signedAt: nat, ghost expAt: nat,
                      ttlAt: nat, storedAt: nat)
      requires Valid() && run.now <= signedAt <= expAt <= ttlAt <= storedAt && op !in run.pending && jti !in run.tokens
      modifies this`run, cache
      ensures Valid()
      ensures run == Tracked(old(run), op, userId, jti, exp, signedAt, expAt, ttlAt, storedAt)
      ensures !Unexpired(exp, ttlAt) ==> cache.store == old(cache.store)
      ensures Unexpired(exp, ttlAt) ==>
        && TrackKey(userId) in cache.store
        && cache.store == old(cache.store)[TrackKey(userId) := cache.store[TrackKey(userId)]]
        && cache.store[TrackKey(userId)].value == ActiveToken(jti, exp)
        && cache.store[TrackKey(userId)].expiresAt >= 1000 * exp
    {
      TrackedStore(run, op, userId, jti, exp, signedAt, expAt, ttlAt, storedAt);
      TrackedReached(run, op, userId, jti, exp, signedAt, expAt, ttlAt, storedAt);
      run := Tracked(run, op, userId, jti, exp, signedAt, expAt, ttlAt, storedAt);
      var ttl := exp - Seconds(ttlAt);
      if ttl <= 0 {
        return;
      }
      EntryOutlivesExp(exp, ttlAt, storedAt);
      cache.Set(TrackKey(userId), ActiveToken(jti, exp), ttl, storedAt);
    }

    /** The token on record with its exp, if it is live when read and time remains afterwards. */
    method FindRecord(userId: string, readAt: nat, computedAt: nat) returns (found: Option<(string, int)>)
      ensures found == ToBlock(cache.store, userId, readAt, computedAt)
    {
      var record := cache.Get(TrackKey(userId), readAt);
      if record.None? || !record.value.ActiveToken? {
        return None;
      }
      var remaining := record.value.exp - Seconds(computedAt);
      return if remaining <= 0 then None else Some((record.value.jti, record.value.exp));
    }

    /** The two writes: the block entry, then the end of the record. */
    method Block(userId: string, jti: string, remaining: int, storedAt: nat)
      modifies cache
      ensures cache.store == Deleted(Stored(old(cache.store), BlockKey(jti), Blocked, remaining, storedAt),
                                     TrackKey(userId))
    {
      cache.Set(BlockKey(jti), Blocked, remaining, storedAt);
      cache.Del(TrackKey(userId));
    }

    method BlockUserTokens(userId: string, ghost op: nat, readAt: nat, computedAt: nat, storedAt: nat)
      requires Valid() && run.now <= readAt <= computedAt <= storedAt && op !in run.pending
      modifies this`run, cache
      ensures Valid()
      ensures run == BlockedBy(old(run), op, userId, readAt, computedAt, storedAt)
      ensures cache.store == BlockedStore(old(cache.store), userId, readAt, computedAt, storedAt)
    {
      BlockedByStore(run, op, userId, readAt, computedAt, storedAt);
      BlockedByReached(run, op, userId, readAt, computedAt, storedAt);
      run := BlockedBy(run, op, userId, readAt, computedAt, storedAt);
      var found := FindRecord(userId, readAt, computedAt);
      if found.Some? {
        Block(userId, found.value.0, found.value.1 - Seconds(computedAt), storedAt);
      }
    }

    /** What every request with the token asks. */
    method IsBlocked(jti: string, now: int) returns (r: bool)
      requires Valid() && run.now <= now
      ensures r <==> TokenBlocklistRuns.IsBlocked(Next(run, Tick(now - run.now)), jti)
    {
      r := cache.Exists(BlockKey(jti), now);
    }
  }
}
