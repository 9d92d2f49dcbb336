/** The protection of the content API: token buckets for a key and for a key and address, concurrency
    permits, and the counters and evictions that bound the memory they take.
    Times are nanoseconds, in the order the lock is taken. Key ids and addresses contain no NUL, so the
    joined bucket names are the values of BucketId. */
module Protection {

  const KEY_CONCURRENCY: nat := 8
  const PAIR_CONCURRENCY: nat := 4
  const MAX_BUCKETS: nat := 8192
  const MAX_PAIRS_PER_KEY: nat := 256
  const STALE_AFTER: nat := 600_000_000_000
  const SECOND: nat := 1_000_000_000

  datatype BucketId = KeyBucket(key: string) | PairBucket(key: string, ip: string)

  function Rate(id: BucketId): real { if id.KeyBucket? then 30.0 else 15.0 }

  function Burst(id: BucketId): real { if id.KeyBucket? then 60.0 else 30.0 }

  datatype Bucket = Bucket(tokens: real, updated: int, lastSeen: int, owner: string)

  /** One successful Acquire; `released` is the sync.Once of its release function. */
  datatype Permit = Permit(key: string, ip: string, released: bool)

  datatype State = State(
    buckets: map<BucketId, Bucket>,
    keyActive: map<string, nat>,
    pairActive: map<BucketId, nat>,
    pairBuckets: map<string, nat>,
    permits: seq<Permit>)

  datatype Outcome = Granted | RateLimited(retry: int) | ConcurrencyLimited | Busy

  /** Reading a Go map of counters. */
  function Get<K>(m: map<K, nat>, k: K): nat { if k in m then m[k] else 0 }

  /** Decrementing a counter, which is deleted at zero. */
  function Decrement<K>(m: map<K, nat>, k: K): map<K, nat>
    requires Get(m, k) > 0
  {
    if m[k] == 1 then m - {k} else m[k := m[k] - 1]
  }

  function Min(a: real, b: real): real { if a <= b then a else b }

  function Seconds(t: int): real { t as real / SECOND as real }

  // ---- tokens ----

  /** The tokens bucket `id` would hold if it were refilled at `t`. */
  function Level(s: State, id: BucketId, t: int): real {
    if id in s.buckets then Min(Burst(id), s.buckets[id].tokens + Seconds(t - s.buckets[id].updated) * Rate(id)) else Burst(id)
  }

  function Refill(s: State, id: BucketId, now: int): Bucket {
    Bucket(Level(s, id, now), now, now, if id in s.buckets then s.buckets[id].owner else "")
  }

  function Ceil(x: real): int { -((-x).Floor) }

  function TokenRetry(tokens: real, rate: real): int
    requires rate > 0.0
  {
    if tokens >= 1.0 then 0 else Ceil((1.0 - tokens) / rate * SECOND as real)
  }

  function Longer(a: int, b: int): int { if b > a then b else a }

  // ---- bounded memory ----

  predicate IsStale(b: Bucket, now: int) { b.lastSeen < now - STALE_AFTER }

  function EvictedOf(s: State, now: int, k: string): set<BucketId> {
    set id | id in s.buckets && IsStale(s.buckets[id], now) && s.buckets[id].owner == k
  }

  /** What lowering a counter leaves of it; the empty owner's counter is never lowered. */
  function Left(count: nat, owner: string, evicted: nat): nat {
    if owner == "" then count else if count > evicted then count - evicted else 0
  }

  /** cleanupStale: evicts every bucket not seen for ten minutes and lowers its owner's counter, which
      is deleted at zero. */
  function Cleanup(s: State, now: int): State {
    s.(buckets := map id | id in s.buckets && !IsStale(s.buckets[id], now) :: s.buckets[id],
       pairBuckets := map k | k in s.pairBuckets && Left(s.pairBuckets[k], k, |EvictedOf(s, now, k)|) > 0 ::
         Left(s.pairBuckets[k], k, |EvictedOf(s, now, k)|))
  }

  function Needed(s: State, key: string, ip: string): nat {
    (if KeyBucket(key) in s.buckets then 0 else 1) + (if PairBucket(key, ip) in s.buckets then 0 else 1)
  }

  predicate HasRoom(s: State, key: string, ip: string) { |s.buckets| + Needed(s, key, ip) <= MAX_BUCKETS }

  predicate PairsFull(s: State, key: string, ip: string) {
    PairBucket(key, ip) !in s.buckets && Get(s.pairBuckets, key) >= MAX_PAIRS_PER_KEY
  }

  /** The state after the eviction the limit of a key's pairs may trigger. */
  function Pruned(s: State, key: string, ip: string, now: int): State {
    if PairsFull(s, key, ip) then Cleanup(s, now) else s
  }

  predicate PairLimited(s: State, key: string, ip: string, now: int) { PairsFull(Pruned(s, key, ip, now), key, ip) }

  /** The state after both capacity checks; ensureCapacity may evict the caller's own buckets. */
  function Tidied(s: State, key: string, ip: string, now: int): State {
    var pruned := Pruned(s, key, ip, now);
    if PairLimited(s, key, ip, now) || HasRoom(pruned, key, ip) then pruned else Cleanup(pruned, now)
  }

  /** saveBuckets. */
  function SaveBuckets(s: State, key: string, ip: string, keyBucket: Bucket, pairBucket: Bucket): State {
    s.(buckets := s.buckets[KeyBucket(key) := keyBucket][PairBucket(key, ip) := pairBucket.(owner := key)],
       pairBuckets := if PairBucket(key, ip) in s.buckets then s.pairBuckets else s.pairBuckets[key := Get(s.pairBuckets, key) + 1])
  }

  predicate LacksTokens(s: State, key: string, ip: string, now: int) {
    Level(s, KeyBucket(key), now) < 1.0 || Level(s, PairBucket(key, ip), now) < 1.0
  }

  predicate AtConcurrency(s: State, key: string, ip: string) {
    Get(s.keyActive, key) >= KEY_CONCURRENCY || Get(s.pairActive, PairBucket(key, ip)) >= PAIR_CONCURRENCY
  }

  /** The answer once the buckets have room: tokens first, then concurrency. */
  function Judge(t: State, key: string, ip: string, now: int): Outcome {
    if LacksTokens(t, key, ip, now) then
      RateLimited(Longer(TokenRetry(Level(t, KeyBucket(key), now), Rate(KeyBucket(key))),
                         TokenRetry(Level(t, PairBucket(key, ip), now), Rate(PairBucket(key, ip)))))
    else if AtConcurrency(t, key, ip) then ConcurrencyLimited
    else Granted
  }

  function Verdict(s: State, key: string, ip: string, now: int): Outcome {
    if PairLimited(s, key, ip, now) then RateLimited(SECOND)
    else if !HasRoom(Tidied(s, key, ip, now), key, ip) then Busy
    else Judge(Tidied(s, key, ip, now), key, ip, now)
  }

  /** Whether the call got as far as storing the refilled buckets. */
  predicate Stores(s: State, key: string, ip: string, now: int) {
    !PairLimited(s, key, ip, now) && HasRoom(Tidied(s, key, ip, now), key, ip)
  }

  function Taken(b: Bucket, granted: bool): Bucket { if granted then b.(tokens := b.tokens - 1.0) else b }

  /** Stores both refilled buckets; a granted call also takes a token from each, raises the counters
      and hands out a permit. */
  function Store(t: State, key: string, ip: string, now: int, granted: bool): State {
    var saved := SaveBuckets(t, key, ip, Taken(Refill(t, KeyBucket(key), now), granted),
                 Taken(Refill(t, PairBucket(key, ip), now), granted));
    if !granted then saved
    else saved.(keyActive := t.keyActive[key := Get(t.keyActive, key) + 1],
                pairActive := t.pairActive[PairBucket(key, ip) := Get(t.pairActive, PairBucket(key, ip)) + 1],
                permits := t.permits + [Permit(key, ip, false)])
  }

  /** Acquire. */
  function Acquire(s: State, key: string, ip: string, now: int): State {
    var t := Tidied(s, key, ip, now);
    if Stores(s, key, ip, now) then Store(t, key, ip, now, Judge(t, key, ip, now).Granted?) else t
  }

  predicate IsOpen(s: State, n: nat) { n < |s.permits| && !s.permits[n].released }

  /** The release function of permit n; calling it again does nothing. */
  function Release(s: State, n: nat): State
    requires IsOpen(s, n) ==> Get(s.keyActive, s.permits[n].key) > 0 && Get(s.pairActive, PairBucket(s.permits[n].key, s.permits[n].ip)) > 0
  {
    if !IsOpen(s, n) then s
    else s.(keyActive := Decrement(s.keyActive, s.permits[n].key),
            pairActive := Decrement(s.pairActive, PairBucket(s.permits[n].key, s.permits[n].ip)),
            permits := s.permits[n := s.permits[n].(released := true)])
  }

  // ---- what every state satisfies ----

  function Owned(s: State, k: string): set<BucketId> {
    set id | id in s.buckets && id.PairBucket? && id.key == k
  }

  function OpenOfKey(s: State, k: string): set<nat> {
    set n | 0 <= n < |s.permits| && !s.permits[n].released && s.permits[n].key == k
  }

  function OpenOfPair(s: State, k: string, ip: string): set<nat> {
    set n | 0 <= n < |s.permits| && !s.permits[n].released && s.permits[n].key == k && s.permits[n].ip == ip
  }

  ghost predicate BucketValid(s: State, id: BucketId, now: int)
    requires id in s.buckets
  {
    var b := s.buckets[id];
    && 0.0 <= b.tokens <= Burst(id) && b.updated == b.lastSeen <= now
    && b.owner == (if id.KeyBucket? then "" else id.key)
  }

  ghost predicate BucketsValid(s: State, now: int) { forall id :: id in s.buckets ==> BucketValid(s, id, now) }

  /** The derived counters: a key's counter is the number of pair buckets it owns. */
  ghost predicate PairsCounted(s: State) {
    && (forall k :: k in s.pairBuckets ==> s.pairBuckets[k] > 0)
    && (forall k :: k != "" ==> Get(s.pairBuckets, k) == |Owned(s, k)| <= MAX_PAIRS_PER_KEY)
  }

  ghost predicate KeysCounted(s: State) {
    && (forall k :: k in s.keyActive ==> s.keyActive[k] > 0)
    && (forall k :: Get(s.keyActive, k) == |OpenOfKey(s, k)| <= KEY_CONCURRENCY)
  }

  ghost predicate OpenPairsCounted(s: State) {
    && (forall p :: p in s.pairActive ==> s.pairActive[p] > 0 && p.PairBucket?)
    && (forall k, ip :: Get(s.pairActive, PairBucket(k, ip)) == |OpenOfPair(s, k, ip)| <= PAIR_CONCURRENCY)
  }

  /** The permits handed out and not released are what the two counters count. */
  ghost predicate PermitsCounted(s: State) { KeysCounted(s) && OpenPairsCounted(s) }

  ghost predicate Valid(s: State, now: int) {
    BucketsValid(s, now) && PairsCounted(s) && PermitsCounted(s) && |s.buckets| <= MAX_BUCKETS
  }

  const EMPTY := State(map[], map[], map[], map[], [])

  lemma {:induction false} EmptyValid(now: int)
    ensures Valid(EMPTY, now)
  {
    forall k ensures OpenOfKey(EMPTY, k) == {} && Owned(EMPTY, k) == {} {}
    forall k, ip ensures OpenOfPair(EMPTY, k, ip) == {} {}
  }

  // ---- levels: evictions and rejected saves are invisible ----

  lemma {:induction false} LevelBounds(s: State, id: BucketId, now: int, t: int)
    requires BucketsValid(s, now) && now <= t
    ensures 0.0 <= Level(s, id, t) <= Burst(id)
  {
    if id in s.buckets {
      assert BucketValid(s, id, now);
      assert Seconds(t - s.buckets[id].updated) >= 0.0;
    }
  }

  /** Waiting never lowers a level and raises it by no more than the rate allows. */
  lemma {:induction false} LevelGrows(s: State, id: BucketId, now: int, t: int, later: int)
    requires BucketsValid(s, now) && now <= t <= later
    ensures Level(s, id, t) <= Level(s, id, later) <= Level(s, id, t) + Seconds(later - t) * Rate(id)
  {
    SplitSeconds(later, t, if id in s.buckets then s.buckets[id].updated else t);
  }

  lemma {:induction false} SplitSeconds(c: int, b: int, a: int)
    ensures Seconds(c - a) == Seconds(c - b) + Seconds(b - a)
    ensures b <= c ==> Seconds(c - b) >= 0.0
  {
    assert (c - a) as real == (c - b) as real + (b - a) as real;
  }

  /** Refilling in two steps is refilling in one. */
  lemma {:induction false} RefillTwice(s: State, id: BucketId, now: int, t: int, u: State)
    requires now <= t && id in u.buckets
    requires u.buckets[id].tokens == Level(s, id, now) && u.buckets[id].updated == now
    ensures Level(u, id, t) == Level(s, id, t)
  {
    SplitSeconds(t, now, if id in s.buckets then s.buckets[id].updated else now);
  }

  /** A stale bucket is full: the bucket that would be created in its place starts with what it holds. */
  lemma {:induction false} StaleIsFull(s: State, id: BucketId, now: int, t: int)
    requires id in s.buckets && BucketValid(s, id, now) && IsStale(s.buckets[id], now) && now <= t
    ensures Level(s, id, t) == Burst(id)
  {
    SplitSeconds(t, now - STALE_AFTER, s.buckets[id].updated);
    assert Seconds(t - s.buckets[id].updated) >= 600.0 by {
      assert t - s.buckets[id].updated >= STALE_AFTER;
    }
  }

  lemma {:induction false} CleanupInvisible(s: State, id: BucketId, now: int, t: int)
    requires BucketsValid(s, now) && now <= t
    ensures Level(Cleanup(s, now), id, t) == Level(s, id, t)
  {
    if id in s.buckets && IsStale(s.buckets[id], now) {
      assert BucketValid(s, id, now);
      StaleIsFull(s, id, now, t);
    }
  }

  lemma {:induction false} CleanupBuckets(s: State, now: int)
    requires BucketsValid(s, now)
    ensures BucketsValid(Cleanup(s, now), now)
  {
    forall id | id in Cleanup(s, now).buckets ensures BucketValid(Cleanup(s, now), id, now) {
      assert BucketValid(s, id, now);
    }
  }

  lemma {:induction false} TidiedInvisible(s: State, key: string, ip: string, id: BucketId, now: int, t: int)
    requires BucketsValid(s, now) && now <= t
    ensures BucketsValid(Tidied(s, key, ip, now), now) && Level(Tidied(s, key, ip, now), id, t) == Level(s, id, t)
  {
    CleanupBuckets(s, now);
    CleanupInvisible(s, id, now, t);
    CleanupBuckets(Cleanup(s, now), now);
    CleanupInvisible(Cleanup(s, now), id, now, t);
  }

  predicate Charges(s: State, key: string, ip: string, now: int, id: BucketId) {
    Verdict(s, key, ip, now).Granted? && (id == KeyBucket(key) || id == PairBucket(key, ip))
  }

  /** The bucket storing leaves under `id`. */
  lemma {:induction false} StoreBucket(t: State, key: string, ip: string, now: int, granted: bool, id: BucketId)
    ensures var a := Store(t, key, ip, now, granted);
      if id == KeyBucket(key) || id == PairBucket(key, ip) then
        && id in a.buckets && a.buckets[id].updated == now == a.buckets[id].lastSeen
        && a.buckets[id].tokens == Level(t, id, now) - (if granted then 1.0 else 0.0)
        && a.buckets[id].owner == if id.PairBucket? then key else if id in t.buckets then t.buckets[id].owner else ""
      else
        && (id in a.buckets <==> id in t.buckets)
        && (id in t.buckets ==> a.buckets[id] == t.buckets[id])
  {
  }

  /** The bucket a call leaves under `id`. */
  lemma {:induction false} AcquireBucket(s: State, key: string, ip: string, now: int, id: BucketId)
    ensures var (u, a) := (Tidied(s, key, ip, now), Acquire(s, key, ip, now));
      if Stores(s, key, ip, now) && (id == KeyBucket(key) || id == PairBucket(key, ip)) then
        && id in a.buckets && a.buckets[id].updated == now == a.buckets[id].lastSeen
        && a.buckets[id].tokens == Level(u, id, now) - (if Charges(s, key, ip, now, id) then 1.0 else 0.0)
      else
        && (id in a.buckets <==> id in u.buckets)
        && (id in u.buckets ==> a.buckets[id] == u.buckets[id])
  {
    var u := Tidied(s, key, ip, now);
    if Stores(s, key, ip, now) { StoreBucket(u, key, ip, now, Judge(u, key, ip, now).Granted?, id); }
  }

  lemma {:induction false} ChargedHasToken(s: State, key: string, ip: string, now: int, id: BucketId)
    requires Charges(s, key, ip, now, id)
    ensures Stores(s, key, ip, now) && Level(Tidied(s, key, ip, now), id, now) >= 1.0
  {
  }

  /** A call that is refused, for whatever reason and whatever it evicted or stored, leaves every level
      at every later time as it was; a granted call takes exactly one token from each of its two buckets
      and none from any other. */
  lemma {:induction false} AcquireLevels(s: State, key: string, ip: string, now: int, id: BucketId, t: int)
    requires BucketsValid(s, now) && now <= t
    ensures !Charges(s, key, ip, now, id) ==> Level(Acquire(s, key, ip, now), id, t) == Level(s, id, t)
    ensures Charges(s, key, ip, now, id) ==> Level(Acquire(s, key, ip, now), id, now) == Level(s, id, now) - 1.0 >= 0.0
  {
    var u, a := Tidied(s, key, ip, now), Acquire(s, key, ip, now);
    TidiedInvisible(s, key, ip, id, now, t);
    TidiedInvisible(s, key, ip, id, now, now);
    AcquireBucket(s, key, ip, now, id);
    if Charges(s, key, ip, now, id) {
      ChargedHasToken(s, key, ip, now, id);
      ChargedLevel(u, a, id, now);
    } else if Stores(s, key, ip, now) && (id == KeyBucket(key) || id == PairBucket(key, ip)) {
      RefillTwice(u, id, now, t, a);
    } else {
      SameBucketSameLevel(u, a, id, t);
    }
  }

  lemma {:induction false} SameBucketSameLevel(u: State, a: State, id: BucketId, t: int)
    requires (id in a.buckets <==> id in u.buckets) && (id in u.buckets ==> a.buckets[id] == u.buckets[id])
    ensures Level(a, id, t) == Level(u, id, t)
  {
  }

  lemma {:induction false} ChargedLevel(u: State, a: State, id: BucketId, now: int)
    requires BucketsValid(u, now) && id in a.buckets && a.buckets[id].updated == now
    requires a.buckets[id].tokens == Level(u, id, now) - 1.0
    ensures Level(a, id, now) == Level(u, id, now) - 1.0
  {
    LevelBounds(u, id, now, now);
    assert Seconds(0) == 0.0;
  }

  /** The delay of a token refusal is exact: after it both buckets hold a token, one nanosecond earlier
      one of them does not. */
  lemma {:induction false} RetryIsExact(s: State, key: string, ip: string, now: int)
    requires BucketsValid(s, now) && Stores(s, key, ip, now) && LacksTokens(s, key, ip, now)
    ensures Verdict(s, key, ip, now).RateLimited?
    ensures var retry := Verdict(s, key, ip, now).retry;
      && retry >= 1
      && !LacksTokens(Acquire(s, key, ip, now), key, ip, now + retry)
      && LacksTokens(Acquire(s, key, ip, now), key, ip, now + retry - 1)
  {
    var u := Tidied(s, key, ip, now);
    var k, p := KeyBucket(key), PairBucket(key, ip);
    TidiedInvisible(s, key, ip, k, now, now);
    TidiedInvisible(s, key, ip, p, now, now);
    var retry := Verdict(s, key, ip, now).retry;
    var keyRetry, pairRetry := TokenRetry(Level(s, k, now), Rate(k)), TokenRetry(Level(s, p, now), Rate(p));
    assert retry == Longer(keyRetry, pairRetry);
    TokensAfter(s, key, ip, now, retry);
    TokensAfter(s, key, ip, now, retry - 1);
  }

  /** After a token refusal both buckets hold a token once both retry delays have passed, and not before. */
  lemma {:induction false} TokensAfter(s: State, key: string, ip: string, now: int, d: int)
    requires BucketsValid(s, now) && LacksTokens(s, key, ip, now) && !Verdict(s, key, ip, now).Granted? && d >= 0
    ensures !LacksTokens(Acquire(s, key, ip, now), key, ip, now + d) <==>
      d >= TokenRetry(Level(s, KeyBucket(key), now), Rate(KeyBucket(key)))
      && d >= TokenRetry(Level(s, PairBucket(key, ip), now), Rate(PairBucket(key, ip)))
  {
    DelayIsExact(s, KeyBucket(key), now, d);
    DelayIsExact(s, PairBucket(key, ip), now, d);
    AcquireLevels(s, key, ip, now, KeyBucket(key), now + d);
    AcquireLevels(s, key, ip, now, PairBucket(key, ip), now + d);
  }

  lemma {:induction false} CeilIsLeast(x: real, n: int)
    ensures n >= Ceil(x) <==> n as real >= x
  {
  }

  lemma {:induction false} DelayReaches(missing: real, rate: real, d: int)
    requires rate > 0.0
    ensures Seconds(d) * rate >= missing <==> d as real >= missing / rate * SECOND as real
  {
    var need := missing / rate * SECOND as real;
    assert need * rate == missing * SECOND as real;
    assert Seconds(d) * rate * SECOND as real == d as real * rate;
    if d as real >= need { assert d as real * rate >= need * rate; }
    if d as real < need { assert d as real * rate < need * rate; }
  }

  /** A bucket holds a token after `d` nanoseconds exactly when its own retry delay is at most `d`. */
  lemma {:induction false} DelayIsExact(s: State, id: BucketId, now: int, d: int)
    requires BucketsValid(s, now) && d >= 0
    ensures Level(s, id, now + d) >= 1.0 <==> d >= TokenRetry(Level(s, id, now), Rate(id))
  {
    var tokens := Level(s, id, now);
    LevelBounds(s, id, now, now);
    LevelGrows(s, id, now, now, now + d);
    if tokens < 1.0 {
      CeilIsLeast((1.0 - tokens) / Rate(id) * SECOND as real, d);
      DelayReaches(1.0 - tokens, Rate(id), d);
      SplitSeconds(now + d, now, s.buckets[id].updated);
    }
  }
}
