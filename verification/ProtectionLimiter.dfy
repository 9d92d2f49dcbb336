/** The protection object itself: maps changed in place under its lock. Each method does exactly what
    its function in Protection says. */
module ProtectionLimiter {
  import opened Protection
  import opened ProtectionRuns

  function Visited(s: State, now: int, done: set<BucketId>, k: string): nat { |EvictedOf(s, now, k) * done| }

  function BucketsLeft(s: State, now: int, done: set<BucketId>): map<BucketId, Bucket> {
    map id | id in s.buckets && !(id in done && IsStale(s.buckets[id], now)) :: s.buckets[id]
  }

  function CountersLeft(s: State, now: int, done: set<BucketId>): map<string, nat> {
    map k | k in s.pairBuckets && Left(s.pairBuckets[k], k, Visited(s, now, done, k)) > 0 ::
      Left(s.pairBuckets[k], k, Visited(s, now, done, k))
  }

  lemma {:induction false} NothingVisited(s: State, now: int)
    requires PairsCounted(s)
    ensures BucketsLeft(s, now, {}) == s.buckets && CountersLeft(s, now, {}) == s.pairBuckets
  {
    forall k | k in s.pairBuckets ensures Left(s.pairBuckets[k], k, Visited(s, now, {}, k)) == s.pairBuckets[k] > 0 {
      assert EvictedOf(s, now, k) * {} == {};
    }
  }

  lemma {:induction false} AllVisited(s: State, now: int)
    ensures BucketsLeft(s, now, s.buckets.Keys) == Cleanup(s, now).buckets
    ensures CountersLeft(s, now, s.buckets.Keys) == Cleanup(s, now).pairBuckets
  {
    forall k ensures Visited(s, now, s.buckets.Keys, k) == |EvictedOf(s, now, k)| {
      assert EvictedOf(s, now, k) * s.buckets.Keys == EvictedOf(s, now, k);
    }
    assert BucketsLeft(s, now, s.buckets.Keys) == Cleanup(s, now).buckets;
  }

  lemma {:induction false} VisitedOneMore(s: State, now: int, done: set<BucketId>, id: BucketId, k: string)
    requires id in s.buckets && id !in done
    ensures Visited(s, now, done + {id}, k) ==
      Visited(s, now, done, k) + (if IsStale(s.buckets[id], now) && s.buckets[id].owner == k then 1 else 0)
  {
    EvictedOneMore(EvictedOf(s, now, k), done, id);
  }

  lemma {:induction false} OneFewerBucket(s: State, now: int, done: set<BucketId>, id: BucketId)
    requires id in s.buckets && id !in done
    ensures BucketsLeft(s, now, done + {id}) ==
      if IsStale(s.buckets[id], now) then BucketsLeft(s, now, done) - {id} else BucketsLeft(s, now, done)
  {
  }

  lemma {:induction false} SameCounters(s: State, now: int, done: set<BucketId>, more: set<BucketId>)
    requires forall k :: k in s.pairBuckets && k != "" ==> Visited(s, now, more, k) == Visited(s, now, done, k)
    ensures CountersLeft(s, now, more) == CountersLeft(s, now, done)
  {
  }

  lemma {:induction false} CounterAt(s: State, now: int, done: set<BucketId>, k: string)
    ensures Get(CountersLeft(s, now, done), k) == if k in s.pairBuckets then Left(s.pairBuckets[k], k, Visited(s, now, done, k)) else 0
    ensures k in CountersLeft(s, now, done) <==> Get(CountersLeft(s, now, done), k) > 0
  {
  }

  lemma {:induction false} IsDecremented(a: map<string, nat>, b: map<string, nat>, owner: string)
    requires forall k :: (k in a <==> Get(a, k) > 0) && (k in b <==> Get(b, k) > 0)
    requires Get(a, owner) > 0 && Get(b, owner) == Get(a, owner) - 1
    requires forall k :: k != owner ==> Get(b, k) == Get(a, k)
    ensures b == Decrement(a, owner)
  {
    var d := Decrement(a, owner);
    forall k ensures Get(d, k) == Get(b, k) && (k in d <==> Get(d, k) > 0) {}
    forall k ensures k in b <==> k in d {}
    forall k | k in b ensures b[k] == d[k] {
      assert Get(b, k) == Get(d, k);
    }
  }

  lemma {:induction false} LoweredCounter(s: State, now: int, done: set<BucketId>, more: set<BucketId>, owner: string)
    requires owner != "" && owner in s.pairBuckets && s.pairBuckets[owner] > Visited(s, now, done, owner)
    requires Visited(s, now, more, owner) == Visited(s, now, done, owner) + 1
    requires forall k :: k in s.pairBuckets && k != owner ==> Visited(s, now, more, k) == Visited(s, now, done, k)
    ensures Get(CountersLeft(s, now, done), owner) > 0
    ensures CountersLeft(s, now, more) == Decrement(CountersLeft(s, now, done), owner)
  {
    var a, b := CountersLeft(s, now, done), CountersLeft(s, now, more);
    forall k ensures (k in a <==> Get(a, k) > 0) && (k in b <==> Get(b, k) > 0) && Get(b, k) == Get(a, k) - (if k == owner then 1 else 0) {
      CounterAt(s, now, done, k);
      CounterAt(s, now, more, k);
    }
    IsDecremented(a, b, owner);
  }

  /** Visiting one more bucket: a stale one is deleted and its owner's counter lowered. */
  lemma {:induction false} OneMoreVisited(s: State, now: int, done: set<BucketId>, id: BucketId)
    requires BucketsValid(s, now) && PairsCounted(s) && id in s.buckets && id !in done
    ensures BucketsLeft(s, now, done + {id}) ==
      if IsStale(s.buckets[id], now) then BucketsLeft(s, now, done) - {id} else BucketsLeft(s, now, done)
    ensures var (counters, owner) := (CountersLeft(s, now, done), s.buckets[id].owner);
      if !IsStale(s.buckets[id], now) || owner == "" then CountersLeft(s, now, done + {id}) == counters
      else Get(counters, owner) > 0 && CountersLeft(s, now, done + {id}) == Decrement(counters, owner)
  {
    var owner := s.buckets[id].owner;
    OneFewerBucket(s, now, done, id);
    forall k ensures Visited(s, now, done + {id}, k) ==
      Visited(s, now, done, k) + (if IsStale(s.buckets[id], now) && owner == k then 1 else 0) {
      VisitedOneMore(s, now, done, id, k);
    }
    if IsStale(s.buckets[id], now) && owner != "" {
      CounterPositive(s, now, done, id);
      LoweredCounter(s, now, done, done + {id}, owner);
    } else {
      SameCounters(s, now, done, done + {id});
    }
  }

  /** A bucket not visited yet is still there, and its owner is still counted if it is stale. */
  lemma {:induction false} StillThere(s: State, now: int, done: set<BucketId>, id: BucketId)
    requires BucketsValid(s, now) && PairsCounted(s) && id in s.buckets && id !in done
    ensures id in BucketsLeft(s, now, done) && BucketsLeft(s, now, done)[id] == s.buckets[id]
    ensures IsStale(s.buckets[id], now) && s.buckets[id].owner != "" ==> Get(CountersLeft(s, now, done), s.buckets[id].owner) > 0
  {
    OneMoreVisited(s, now, done, id);
  }

  lemma {:induction false} EvictedOneMore(e: set<BucketId>, done: set<BucketId>, id: BucketId)
    requires id !in done
    ensures |e * (done + {id})| == |e * done| + (if id in e then 1 else 0)
  {
    assert e * (done + {id}) == e * done + (if id in e then {id} else {});
  }

  lemma {:induction false} CounterPositive(s: State, now: int, done: set<BucketId>, id: BucketId)
    requires BucketsValid(s, now) && PairsCounted(s) && id in s.buckets && id !in done
    requires IsStale(s.buckets[id], now) && s.buckets[id].owner != ""
    ensures Get(s.pairBuckets, s.buckets[id].owner) > Visited(s, now, done, s.buckets[id].owner)
  {
    var owner := s.buckets[id].owner;
    var e := EvictedOf(s, now, owner);
    CleanupOwned(s, now, owner);
    assert Get(s.pairBuckets, owner) == |Owned(s, owner)|;
    SubsetSizes(e, Owned(s, owner));
    SubsetSizes(e * done, e - {id});
    SubsetSizes({id}, e);
  }

  class Limiter {
    var buckets: map<BucketId, Bucket>
    var keyActive: map<string, nat>
    var pairActive: map<BucketId, nat>
    var pairBuckets: map<string, nat>
    var permits: seq<Permit>

    ghost function Contents(): State
      reads this
    {
      State(buckets, keyActive, pairActive, pairBuckets, permits)
    }

    constructor ()
      ensures Contents() == EMPTY
    {
      buckets, keyActive, pairActive, pairBuckets, permits := map[], map[], map[], map[], [];
    }

    method Visit(id: BucketId, now: int)
      requires id in buckets
      requires IsStale(buckets[id], now) && buckets[id].owner != "" ==> Get(pairBuckets, buckets[id].owner) > 0
      modifies this`buckets, this`pairBuckets
      ensures buckets == if IsStale(old(buckets)[id], now) then old(buckets) - {id} else old(buckets)
      ensures pairBuckets ==
        if IsStale(old(buckets)[id], now) && old(buckets)[id].owner != "" then Decrement(old(pairBuckets), old(buckets)[id].owner)
        else old(pairBuckets)
    {
      if IsStale(buckets[id], now) {
        var owner := buckets[id].owner;
        buckets := buckets - {id};
        if owner != "" { pairBuckets := Decrement(pairBuckets, owner); }
      }
    }

    /** The map is visited in no particular order. */
    method CleanupStale(now: int)
      requires BucketsValid(Contents(), now) && PairsCounted(Contents())
      modifies this`buckets, this`pairBuckets
      ensures Contents() == Cleanup(old(Contents()), now)
    {
      ghost var before := Contents();
      var todo := buckets.Keys;
      NothingVisited(before, now);
      ghost var done: set<BucketId> := {};
      while todo != {}
        invariant todo == before.buckets.Keys - done && done <= before.buckets.Keys
        invariant buckets == BucketsLeft(before, now, done) && pairBuckets == CountersLeft(before, now, done)
        decreases todo
      {
        var id :| id in todo;
        VisitOneMore(before, done, id, now);
        todo, done := todo - {id}, done + {id};
      }
      assert done == before.buckets.Keys;
      AllVisited(before, now);
    }

    method VisitOneMore(ghost before: State, ghost done: set<BucketId>, id: BucketId, now: int)
      requires BucketsValid(before, now) && PairsCounted(before) && id in before.buckets && id !in done
      requires buckets == BucketsLeft(before, now, done) && pairBuckets == CountersLeft(before, now, done)
      modifies this`buckets, this`pairBuckets
      ensures buckets == BucketsLeft(before, now, done + {id}) && pairBuckets == CountersLeft(before, now, done + {id})
    {
      StillThere(before, now, done, id);
      OneMoreVisited(before, now, done, id);
      Visit(id, now);
    }

    method EnsureCapacity(key: string, ip: string, now: int) returns (room: bool)
      requires BucketsValid(Contents(), now) && PairsCounted(Contents())
      modifies this`buckets, this`pairBuckets
      ensures Contents() == if HasRoom(old(Contents()), key, ip) then old(Contents()) else Cleanup(old(Contents()), now)
      ensures room == HasRoom(Contents(), key, ip)
    {
      var needed := CountMissing(key, ip);
      if |buckets| + needed <= MAX_BUCKETS { return true; }
      CleanupStale(now);
      needed := CountMissing(key, ip);
      return |buckets| + needed <= MAX_BUCKETS;
    }

    method CountMissing(key: string, ip: string) returns (needed: nat)
      ensures needed == Needed(Contents(), key, ip)
    {
      needed := 0;
      if KeyBucket(key) !in buckets { needed := needed + 1; }
      if PairBucket(key, ip) !in buckets { needed := needed + 1; }
    }

    method RefillBucket(id: BucketId, now: int) returns (bucket: Bucket)
      ensures bucket == Refill(Contents(), id, now)
    {
      if id !in buckets { return Bucket(Burst(id), now, now, ""); }
      bucket := buckets[id];
      bucket := bucket.(tokens := Min(Burst(id), bucket.tokens + Seconds(now - bucket.updated) * Rate(id)));
      bucket := bucket.(updated := now, lastSeen := now);
    }

    method Save(key: string, ip: string, keyBucket: Bucket, pairBucket: Bucket, pairExists: bool)
      requires pairExists == (PairBucket(key, ip) in buckets)
      modifies this`buckets, this`pairBuckets
      ensures Contents() == SaveBuckets(old(Contents()), key, ip, keyBucket, pairBucket)
    {
      buckets := buckets[KeyBucket(key) := keyBucket];
      buckets := buckets[PairBucket(key, ip) := pairBucket.(owner := key)];
      if !pairExists { pairBuckets := pairBuckets[key := Get(pairBuckets, key) + 1]; }
    }

    /** The two capacity checks: the limit of a key's pairs, then room for the buckets of this call. */
    method Reserve(key: string, ip: string, now: int) returns (limited: bool, room: bool)
      requires BucketsValid(Contents(), now) && PairsCounted(Contents())
      modifies this`buckets, this`pairBuckets
      ensures Contents() == Tidied(old(Contents()), key, ip, now)
      ensures limited == PairLimited(old(Contents()), key, ip, now)
      ensures !limited ==> room == HasRoom(Contents(), key, ip)
    {
      ghost var before := Contents();
      var pairExists := PairBucket(key, ip) in buckets;
      if !pairExists {
        if Get(pairBuckets, key) >= MAX_PAIRS_PER_KEY { CleanupStale(now); }
        if Get(pairBuckets, key) >= MAX_PAIRS_PER_KEY { return true, false; }
      }
      assert Contents() == Pruned(before, key, ip, now) && !PairLimited(before, key, ip, now);
      PrunedKeeps(before, key, ip, now);
      limited := false;
      room := EnsureCapacity(key, ip, now);
    }

    method Admit(key: string, ip: string, now: int) returns (outcome: Outcome)
      modifies this
      ensures outcome == Judge(old(Contents()), key, ip, now)
      ensures Contents() == Store(old(Contents()), key, ip, now, outcome.Granted?)
    {
      var pairExists := PairBucket(key, ip) in buckets;
      var keyBucket := RefillBucket(KeyBucket(key), now);
      var pairBucket := RefillBucket(PairBucket(key, ip), now);
      if keyBucket.tokens < 1.0 || pairBucket.tokens < 1.0 {
        Save(key, ip, keyBucket, pairBucket, pairExists);
        var retry := TokenRetry(keyBucket.tokens, Rate(KeyBucket(key)));
        var pairRetry := TokenRetry(pairBucket.tokens, Rate(PairBucket(key, ip)));
        if pairRetry > retry { retry := pairRetry; }
        return RateLimited(retry);
      }
      if Get(keyActive, key) >= KEY_CONCURRENCY || Get(pairActive, PairBucket(key, ip)) >= PAIR_CONCURRENCY {
        Save(key, ip, keyBucket, pairBucket, pairExists);
        return ConcurrencyLimited;
      }
      keyBucket := keyBucket.(tokens := keyBucket.tokens - 1.0);
      pairBucket := pairBucket.(tokens := pairBucket.tokens - 1.0);
      Save(key, ip, keyBucket, pairBucket, pairExists);
      keyActive := keyActive[key := Get(keyActive, key) + 1];
      pairActive := pairActive[PairBucket(key, ip) := Get(pairActive, PairBucket(key, ip)) + 1];
      permits := permits + [Permit(key, ip, false)];
      return Granted;
    }

    /** The permit's index stands for the release function that is handed out. */
    method Acquire(key: string, ip: string, now: int) returns (outcome: Outcome, permit: nat)
      requires Valid(Contents(), now)
      modifies this
      ensures Contents() == Protection.Acquire(old(Contents()), key, ip, now)
      ensures outcome == Verdict(old(Contents()), key, ip, now)
      ensures outcome.Granted? ==> permit == |old(permits)|
    {
      permit := |permits|;
      var limited, room := Reserve(key, ip, now);
      if limited { return RateLimited(SECOND), permit; }
      if !room { return Busy, permit; }
      outcome := Admit(key, ip, now);
    }

    method Release(n: nat)
      requires PermitsCounted(Contents())
      modifies this`keyActive, this`pairActive, this`permits
      ensures IsOpen(old(Contents()), n) ==> PermitsCounted(Contents())
      ensures IsStep(old(Contents()), Done(n, 0), Contents())
    {
      if n < |permits| && !permits[n].released {
        ReleaseCounted(Contents(), n);
        var key, pair := permits[n].key, PairBucket(permits[n].key, permits[n].ip);
        permits := permits[n := permits[n].(released := true)];
        keyActive := Decrement(keyActive, key);
        pairActive := Decrement(pairActive, pair);
      }
    }
  }
}
