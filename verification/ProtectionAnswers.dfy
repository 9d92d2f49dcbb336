/** The answer of every call in every valid state, and the level of every bucket at every time, in numbers. */
module ProtectionAnswers {
  import opened Protection
  import opened ProtectionRuns

  /** Seen within the last ten minutes. */
  predicate SeenLately(b: Bucket, now: int) { b.lastSeen >= now - 600_000_000_000 }

  function Lively(s: State, now: int): set<BucketId> { set id | id in s.buckets && SeenLately(s.buckets[id], now) }

  function LivelyPairs(s: State, now: int, key: string): set<BucketId> {
    set id | id in s.buckets && SeenLately(s.buckets[id], now) && id.PairBucket? && id.key == key
  }

  /** There is room for the pair: it has a bucket, or fewer than 256 lively pairs of the key do. */
  predicate PairFits(s: State, key: string, ip: string, now: int) {
    PairBucket(key, ip) in s.buckets || |LivelyPairs(s, now, key)| < 256
  }

  /** There is room for both buckets besides the lively ones. */
  predicate BothFit(s: State, key: string, ip: string, now: int) {
    |Lively(s, now) + {KeyBucket(key), PairBucket(key, ip)}| <= 8192
  }

  lemma {:induction false} CleanupKeys(s: State, now: int)
    ensures Cleanup(s, now).buckets.Keys == Lively(s, now)
  {
  }

  lemma {:induction false} SmallerSet<T>(a: set<T>, b: set<T>)
    requires a <= b
    ensures |a| <= |b|
  {
    assert b == a + (b - a);
  }

  lemma {:induction false} LivelyOwned(s: State, now: int, key: string)
    requires BucketsValid(s, now)
    ensures Owned(Cleanup(s, now), key) == LivelyPairs(s, now, key) <= Owned(s, key)
    ensures |LivelyPairs(s, now, key)| <= |Owned(s, key)|
  {
    SmallerSet(LivelyPairs(s, now, key), Owned(s, key));
  }

  lemma {:induction false} PairFitsIff(s: State, key: string, ip: string, now: int)
    requires BucketsValid(s, now) && PairsCounted(s) && key != ""
    ensures !PairLimited(s, key, ip, now) <==> PairFits(s, key, ip, now)
  {
    LivelyOwned(s, now, key);
    assert Get(s.pairBuckets, key) == |Owned(s, key)|;
    if PairsFull(s, key, ip) {
      CleanupCounted(s, now);
      assert Get(Cleanup(s, now).pairBuckets, key) == |Owned(Cleanup(s, now), key)|;
      assert PairBucket(key, ip) !in Cleanup(s, now).buckets;
    }
  }

  lemma {:induction false} RoomIs(s: State, key: string, ip: string)
    ensures HasRoom(s, key, ip) <==> |s.buckets.Keys + {KeyBucket(key), PairBucket(key, ip)}| <= 8192
  {
    TwoMore(s.buckets.Keys, KeyBucket(key), PairBucket(key, ip));
    assert s.buckets.Keys + {KeyBucket(key), PairBucket(key, ip)} == s.buckets.Keys + {KeyBucket(key)} + {PairBucket(key, ip)};
    assert |s.buckets.Keys| == |s.buckets|;
  }

  lemma {:induction false} LivelyTwice(s: State, now: int)
    ensures Lively(Cleanup(s, now), now) == Lively(s, now)
  {
  }

  lemma {:induction false} BothFitIff(s: State, key: string, ip: string, now: int)
    requires !PairLimited(s, key, ip, now)
    ensures HasRoom(Tidied(s, key, ip, now), key, ip) <==> BothFit(s, key, ip, now)
  {
    var pruned := Pruned(s, key, ip, now);
    LivelyTwice(s, now);
    CleanupKeys(pruned, now);
    RoomIs(pruned, key, ip);
    RoomIs(Cleanup(pruned, now), key, ip);
    SmallerSet(Lively(pruned, now) + {KeyBucket(key), PairBucket(key, ip)}, pruned.buckets.Keys + {KeyBucket(key), PairBucket(key, ip)});
  }

  /** In this order: a second's delay if the pair does not fit, busy if the buckets do not, a delay if one of them
      holds less than a token, a refusal if the key has 8 open calls or the pair 4, and otherwise a grant. */
  lemma {:induction false} AcquireAnswer(s: State, key: string, ip: string, now: int)
    requires Valid(s, now) && key != ""
    ensures var answer := Verdict(s, key, ip, now);
      if !PairFits(s, key, ip, now) then answer == RateLimited(1_000_000_000)
      else if !BothFit(s, key, ip, now) then answer == Busy
      else if Level(s, KeyBucket(key), now) < 1.0 || Level(s, PairBucket(key, ip), now) < 1.0 then answer.RateLimited?
      else if |OpenOfKey(s, key)| >= 8 || |OpenOfPair(s, key, ip)| >= 4 then answer == ConcurrencyLimited
      else answer == Granted
  {
    PairFitsIff(s, key, ip, now);
    if !PairLimited(s, key, ip, now) { BothFitIff(s, key, ip, now); }
    TidiedInvisible(s, key, ip, KeyBucket(key), now, now);
    TidiedInvisible(s, key, ip, PairBucket(key, ip), now, now);
    TidiedKeeps(s, key, ip, now);
    assert Get(s.keyActive, key) == |OpenOfKey(s, key)|;
    assert Get(s.pairActive, PairBucket(key, ip)) == |OpenOfPair(s, key, ip)|;
  }

  // ---- levels ----

  /** A bucket nobody has used holds 60 tokens for a key and 30 for a pair. */
  lemma UnusedIsFull(s: State, key: string, ip: string, t: int)
    ensures KeyBucket(key) !in s.buckets ==> Level(s, KeyBucket(key), t) == 60.0
    ensures PairBucket(key, ip) !in s.buckets ==> Level(s, PairBucket(key, ip), t) == 30.0
  {
  }

  /** Left alone for d nanoseconds a bucket gains 30 tokens a second for a key and 15 for a pair, up to 60 and 30. */
  lemma {:induction false} LevelAfterWait(s: State, id: BucketId, now: int, t: int, d: nat)
    requires BucketsValid(s, now) && now <= t
    ensures var gained := d as real / 1_000_000_000.0;
      Level(s, id, t + d) ==
        if id.KeyBucket? then Min(60.0, Level(s, id, t) + gained * 30.0) else Min(30.0, Level(s, id, t) + gained * 15.0)
  {
    LevelBounds(s, id, now, t);
    SplitSeconds(t + d, t, if id in s.buckets then s.buckets[id].updated else t);
    assert Seconds(d) == d as real / 1_000_000_000.0 >= 0.0;
    if id in s.buckets {
      var b := s.buckets[id];
      Distribute(Seconds(d), Seconds(t - b.updated), Rate(id));
    }
  }

  lemma Distribute(a: real, b: real, rate: real)
    requires rate >= 0.0 && a >= 0.0
    ensures (a + b) * rate == a * rate + b * rate && a * rate >= 0.0
  {
  }
}
