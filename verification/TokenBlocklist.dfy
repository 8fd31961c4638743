/** token-blocklist.service.ts: the token a user last received is remembered, and blocked on demand. */
module TokenBlocklist {
  import opened Clock

  datatype CacheValue = ActiveToken(jti: string, exp: int) | Blocked

  const TRACK_PREFIX := "user_active_token:"
  const BLOCK_PREFIX := "blocked_token:"

  function TrackKey(userId: string): string {
    TRACK_PREFIX + userId
  }

  function BlockKey(jti: string): string {
    BLOCK_PREFIX + jti
  }

  /** A JWT is accepted strictly before its exp claim, in whole seconds (section 4.1.4 of RFC 7519). */
  predicate Unexpired(exp: int, now: int) {
    Seconds(now) < exp
  }

  lemma KeysDistinct(a: string, b: string)
    ensures TrackKey(a) == TrackKey(b) <==> a == b
    ensures BlockKey(a) == BlockKey(b) <==> a == b
    ensures TrackKey(a) != BlockKey(b)
  {
    assert TrackKey(a)[0] == 'u' && BlockKey(b)[0] == 'b';
    assert TrackKey(a)[|TRACK_PREFIX|..] == a && TrackKey(b)[|TRACK_PREFIX|..] == b;
    assert BlockKey(a)[|BLOCK_PREFIX|..] == a && BlockKey(b)[|BLOCK_PREFIX|..] == b;
  }

  /** A time to live rounded down to seconds and stored later never ends before `exp`. */
  lemma EntryOutlivesExp(exp: int, computedAt: int, storedAt: int)
    requires computedAt <= storedAt
    ensures storedAt + 1000 * (exp - Seconds(computedAt)) >= 1000 * exp
    ensures computedAt == storedAt ==> storedAt + 1000 * (exp - Seconds(computedAt)) < 1000 * exp + 1000
  {
  }
}
