/** Runs of the protection: calls and releases in any order, by any number of clients. */
module ProtectionRuns {
  import opened Protection

  // ---- every step keeps the counters exact and the memory bounded ----

  lemma {:induction false} CleanupOwned(s: State, now: int, k: string)
    requires BucketsValid(s, now) && k != ""
    ensures EvictedOf(s, now, k) <= Owned(s, k)
    ensures Owned(Cleanup(s, now), k) == Owned(s, k) - EvictedOf(s, now, k)
    ensures |Owned(Cleanup(s, now), k)| == |Owned(s, k)| - |EvictedOf(s, now, k)|
  {
    forall id | id in s.buckets && s.buckets[id].owner == k ensures id in Owned(s, k) {
      assert BucketValid(s, id, now);
    }
    forall id | id in Owned(s, k) ensures s.buckets[id].owner == k {
      assert BucketValid(s, id, now);
    }
    assert Owned(Cleanup(s, now), k) == Owned(s, k) - EvictedOf(s, now, k);
    SubsetSizes(EvictedOf(s, now, k), Owned(s, k));
  }

  lemma {:induction false} SubsetSizes<T>(a: set<T>, b: set<T>)
    requires a <= b
    ensures |b - a| == |b| - |a| && |a| <= |b|
  {
    assert b == a + (b - a);
  }

  lemma {:induction false} CleanupCounted(s: State, now: int)
    requires BucketsValid(s, now) && PairsCounted(s)
    ensures PairsCounted(Cleanup(s, now))
  {
    var c := Cleanup(s, now);
    forall k | k != "" ensures Get(c.pairBuckets, k) == |Owned(c, k)| <= MAX_PAIRS_PER_KEY {
      CleanupOwned(s, now, k);
      assert Get(s.pairBuckets, k) == |Owned(s, k)|;
    }
  }

  lemma {:induction false} CleanupSmaller(s: State, now: int)
    ensures |Cleanup(s, now).buckets| <= |s.buckets|
  {
    SubsetSizes(Cleanup(s, now).buckets.Keys, s.buckets.Keys);
    assert |Cleanup(s, now).buckets.Keys| == |Cleanup(s, now).buckets| && |s.buckets.Keys| == |s.buckets|;
  }

  /** What evictions keep. */
  ghost predicate Trimmed(s: State, u: State, now: int) {
    && BucketsValid(u, now) && PairsCounted(u) && |u.buckets| <= |s.buckets|
    && u.keyActive == s.keyActive && u.pairActive == s.pairActive && u.permits == s.permits
  }

  lemma {:induction false} CleanupTrims(s: State, now: int)
    requires BucketsValid(s, now) && PairsCounted(s)
    ensures Trimmed(s, Cleanup(s, now), now)
  {
    CleanupBuckets(s, now);
    CleanupCounted(s, now);
    CleanupSmaller(s, now);
  }

  lemma {:induction false} PrunedKeeps(s: State, key: string, ip: string, now: int)
    requires BucketsValid(s, now) && PairsCounted(s)
    ensures Trimmed(s, Pruned(s, key, ip, now), now)
  {
    if PairsFull(s, key, ip) { CleanupTrims(s, now); }
  }

  lemma {:induction false} TidiedKeeps(s: State, key: string, ip: string, now: int)
    requires BucketsValid(s, now) && PairsCounted(s)
    ensures Trimmed(s, Tidied(s, key, ip, now), now)
  {
    PrunedKeeps(s, key, ip, now);
    CleanupTrims(Pruned(s, key, ip, now), now);
  }

  /** When ensureCapacity evicts the caller's own pair, its counter has room for it again. */
  lemma {:induction false} RoomForPair(s: State, key: string, ip: string, now: int)
    requires BucketsValid(s, now) && PairsCounted(s) && key != "" && !PairLimited(s, key, ip, now)
    requires PairBucket(key, ip) !in Tidied(s, key, ip, now).buckets
    ensures Get(Tidied(s, key, ip, now).pairBuckets, key) < MAX_PAIRS_PER_KEY
  {
    var pruned, p := Pruned(s, key, ip, now), PairBucket(key, ip);
    CleanupBuckets(s, now);
    CleanupCounted(s, now);
    if p in pruned.buckets {
      CleanupCounted(pruned, now);
      var u := Cleanup(pruned, now);
      CleanupOwned(pruned, now, key);
      assert p in Owned(pruned, key) && p !in Owned(u, key);
      assert Owned(u, key) <= Owned(pruned, key) - {p};
      SubsetSizes(Owned(u, key), Owned(pruned, key) - {p});
      assert Get(u.pairBuckets, key) == |Owned(u, key)|;
    } else {
      CleanupCounted(pruned, now);
      CleanupOwned(pruned, now, key);
      assert Get(pruned.pairBuckets, key) < MAX_PAIRS_PER_KEY;
      assert Get(Cleanup(pruned, now).pairBuckets, key) == |Owned(Cleanup(pruned, now), key)|;
      assert Get(pruned.pairBuckets, key) == |Owned(pruned, key)|;
    }
  }

  lemma {:induction false} SaveCounted(u: State, key: string, ip: string, kb: Bucket, pb: Bucket)
    requires PairsCounted(u)
    requires key != "" && PairBucket(key, ip) !in u.buckets ==> Get(u.pairBuckets, key) < MAX_PAIRS_PER_KEY
    ensures PairsCounted(SaveBuckets(u, key, ip, kb, pb))
  {
    var a, p := SaveBuckets(u, key, ip, kb, pb), PairBucket(key, ip);
    forall k | k != "" ensures Get(a.pairBuckets, k) == |Owned(a, k)| <= MAX_PAIRS_PER_KEY {
      assert Get(u.pairBuckets, k) == |Owned(u, k)|;
      if k == key {
        assert Owned(a, k) == Owned(u, k) + {p};
      } else {
        assert Owned(a, k) == Owned(u, k);
      }
    }
  }

  lemma {:induction false} TwoMore<T>(a: set<T>, x: T, y: T)
    requires x != y
    ensures |a + {x} + {y}| == |a| + (if x in a then 0 else 1) + (if y in a then 0 else 1)
  {
    if x in a { assert a + {x} == a; }
    if y in a { assert a + {x} + {y} == a + {x}; }
  }

  lemma {:induction false} SaveSize(u: State, key: string, ip: string, kb: Bucket, pb: Bucket)
    requires HasRoom(u, key, ip)
    ensures |SaveBuckets(u, key, ip, kb, pb).buckets| <= MAX_BUCKETS
  {
    var a, k, p := SaveBuckets(u, key, ip, kb, pb).buckets, KeyBucket(key), PairBucket(key, ip);
    TwoMore(u.buckets.Keys, k, p);
    assert a.Keys == u.buckets.Keys + {k} + {p};
    assert |a.Keys| == |a| && |u.buckets.Keys| == |u.buckets|;
  }

  /** The owner a call leaves under `id`. */
  lemma {:induction false} AcquireOwner(s: State, key: string, ip: string, now: int, id: BucketId)
    requires id in Acquire(s, key, ip, now).buckets
    ensures var (u, a) := (Tidied(s, key, ip, now), Acquire(s, key, ip, now));
      a.buckets[id].owner ==
        if Stores(s, key, ip, now) && id == PairBucket(key, ip) then key
        else if id in u.buckets then u.buckets[id].owner else ""
    ensures var (u, a) := (Tidied(s, key, ip, now), Acquire(s, key, ip, now));
      id in u.buckets || (Stores(s, key, ip, now) && (id == KeyBucket(key) || id == PairBucket(key, ip)))
  {
    var u := Tidied(s, key, ip, now);
    if Stores(s, key, ip, now) { StoreBucket(u, key, ip, now, Judge(u, key, ip, now).Granted?, id); }
  }

  lemma {:induction false} AcquireBuckets(s: State, key: string, ip: string, now: int)
    requires BucketsValid(s, now)
    ensures BucketsValid(Acquire(s, key, ip, now), now)
  {
    var u, a := Tidied(s, key, ip, now), Acquire(s, key, ip, now);
    forall id | id in a.buckets ensures BucketValid(a, id, now) {
      TidiedInvisible(s, key, ip, id, now, now);
      AcquireBucket(s, key, ip, now, id);
      AcquireOwner(s, key, ip, now, id);
      if Charges(s, key, ip, now, id) { ChargedHasToken(s, key, ip, now, id); }
      BucketKept(u, a, id, now, key, ip, Stores(s, key, ip, now), Charges(s, key, ip, now, id));
    }
  }

  lemma {:induction false} BucketKept(u: State, a: State, id: BucketId, now: int, key: string, ip: string, stores: bool,
      charges: bool)
    requires BucketsValid(u, now) && id in a.buckets && (charges ==> Level(u, id, now) >= 1.0)
    requires id in u.buckets || (stores && (id == KeyBucket(key) || id == PairBucket(key, ip)))
    requires a.buckets[id].owner == if stores && id == PairBucket(key, ip) then key else if id in u.buckets then u.buckets[id].owner else ""
    requires if stores && (id == KeyBucket(key) || id == PairBucket(key, ip))
             then a.buckets[id].updated == now == a.buckets[id].lastSeen
               && a.buckets[id].tokens == Level(u, id, now) - (if charges then 1.0 else 0.0)
             else id in u.buckets && a.buckets[id] == u.buckets[id]
    ensures BucketValid(a, id, now)
  {
    LevelBounds(u, id, now, now);
    if id in u.buckets { assert BucketValid(u, id, now); }
  }

  lemma {:induction false} AcquireCounters(s: State, key: string, ip: string, now: int)
    requires BucketsValid(s, now) && PairsCounted(s) && |s.buckets| <= MAX_BUCKETS
    ensures PairsCounted(Acquire(s, key, ip, now)) && |Acquire(s, key, ip, now).buckets| <= MAX_BUCKETS
  {
    var u := Tidied(s, key, ip, now);
    TidiedKeeps(s, key, ip, now);
    if Stores(s, key, ip, now) {
      if key != "" && PairBucket(key, ip) !in u.buckets { RoomForPair(s, key, ip, now); }
      var granted := Verdict(s, key, ip, now).Granted?;
      var kb, pb := Taken(Refill(u, KeyBucket(key), now), granted), Taken(Refill(u, PairBucket(key, ip), now), granted);
      SaveCounted(u, key, ip, kb, pb);
      SaveSize(u, key, ip, kb, pb);
      SameOwned(SaveBuckets(u, key, ip, kb, pb), Acquire(s, key, ip, now));
    }
  }

  lemma {:induction false} SameOwned(a: State, b: State)
    requires PairsCounted(a) && b.buckets == a.buckets && b.pairBuckets == a.pairBuckets
    ensures PairsCounted(b)
  {
    forall k | k != "" ensures Get(b.pairBuckets, k) == |Owned(b, k)| <= MAX_PAIRS_PER_KEY {
      assert Owned(b, k) == Owned(a, k);
    }
  }

  lemma {:induction false} SamePermits(a: State, b: State)
    requires PermitsCounted(a) && b.keyActive == a.keyActive && b.pairActive == a.pairActive && b.permits == a.permits
    ensures PermitsCounted(b)
  {
    forall k ensures Get(b.keyActive, k) == |OpenOfKey(b, k)| <= KEY_CONCURRENCY {
      assert OpenOfKey(b, k) == OpenOfKey(a, k);
    }
    forall k, ip ensures Get(b.pairActive, PairBucket(k, ip)) == |OpenOfPair(b, k, ip)| <= PAIR_CONCURRENCY {
      assert OpenOfPair(b, k, ip) == OpenOfPair(a, k, ip);
    }
  }

  /** A permit is added: the counters of its key and of its pair rise by one. */
  ghost predicate Issued(s: State, a: State, key: string, ip: string) {
    && a.permits == s.permits + [Permit(key, ip, false)]
    && a.keyActive == s.keyActive[key := Get(s.keyActive, key) + 1]
    && a.pairActive == s.pairActive[PairBucket(key, ip) := Get(s.pairActive, PairBucket(key, ip)) + 1]
  }

  lemma {:induction false} IssuedOpenKey(s: State, a: State, key: string, ip: string, k: string)
    requires a.permits == s.permits + [Permit(key, ip, false)]
    ensures |OpenOfKey(a, k)| == |OpenOfKey(s, k)| + (if k == key then 1 else 0)
  {
    assert forall n :: 0 <= n < |s.permits| ==> a.permits[n] == s.permits[n];
    assert OpenOfKey(a, k) == OpenOfKey(s, k) + (if k == key then {|s.permits|} else {});
  }

  lemma {:induction false} IssuedOpenPair(s: State, a: State, key: string, ip: string, k: string, i: string)
    requires a.permits == s.permits + [Permit(key, ip, false)]
    ensures |OpenOfPair(a, k, i)| == |OpenOfPair(s, k, i)| + (if k == key && i == ip then 1 else 0)
  {
    assert forall n :: 0 <= n < |s.permits| ==> a.permits[n] == s.permits[n];
    assert OpenOfPair(a, k, i) == OpenOfPair(s, k, i) + (if k == key && i == ip then {|s.permits|} else {});
  }

  lemma {:induction false} IssuedKeys(s: State, a: State, key: string, ip: string)
    requires KeysCounted(s) && Issued(s, a, key, ip) && Get(s.keyActive, key) < KEY_CONCURRENCY
    ensures KeysCounted(a)
  {
    forall k ensures Get(a.keyActive, k) == |OpenOfKey(a, k)| <= KEY_CONCURRENCY {
      IssuedOpenKey(s, a, key, ip, k);
      assert Get(s.keyActive, k) == |OpenOfKey(s, k)|;
    }
  }

  lemma {:induction false} IssuedPairs(s: State, a: State, key: string, ip: string)
    requires OpenPairsCounted(s) && Issued(s, a, key, ip) && Get(s.pairActive, PairBucket(key, ip)) < PAIR_CONCURRENCY
    ensures OpenPairsCounted(a)
  {
    forall k, i ensures Get(a.pairActive, PairBucket(k, i)) == |OpenOfPair(a, k, i)| <= PAIR_CONCURRENCY {
      IssuedOpenPair(s, a, key, ip, k, i);
      assert Get(s.pairActive, PairBucket(k, i)) == |OpenOfPair(s, k, i)|;
    }
  }

  lemma {:induction false} IssuedCounted(s: State, a: State, key: string, ip: string)
    requires PermitsCounted(s) && Issued(s, a, key, ip) && !AtConcurrency(s, key, ip)
    ensures PermitsCounted(a)
  {
    IssuedKeys(s, a, key, ip);
    IssuedPairs(s, a, key, ip);
  }

  lemma {:induction false} TidiedCounters(s: State, key: string, ip: string, now: int)
    ensures var u := Tidied(s, key, ip, now); u.keyActive == s.keyActive && u.pairActive == s.pairActive && u.permits == s.permits
  {
  }

  lemma {:induction false} StoreIssues(t: State, key: string, ip: string, now: int, granted: bool)
    ensures var a := Store(t, key, ip, now, granted);
      if granted then Issued(t, a, key, ip)
      else a.keyActive == t.keyActive && a.pairActive == t.pairActive && a.permits == t.permits
  {
  }

  lemma {:induction false} IssuedElsewhere(s: State, t: State, a: State, key: string, ip: string)
    requires Issued(t, a, key, ip) && t.keyActive == s.keyActive && t.pairActive == s.pairActive
    requires t.permits == s.permits
    ensures Issued(s, a, key, ip)
  {
  }

  lemma {:induction false} AcquireIssues(s: State, key: string, ip: string, now: int)
    ensures var a := Acquire(s, key, ip, now);
      if Verdict(s, key, ip, now).Granted? then Issued(s, a, key, ip) && !AtConcurrency(s, key, ip)
      else a.keyActive == s.keyActive && a.pairActive == s.pairActive && a.permits == s.permits
  {
    var t := Tidied(s, key, ip, now);
    TidiedCounters(s, key, ip, now);
    if Stores(s, key, ip, now) {
      var granted := Judge(t, key, ip, now).Granted?;
      StoreIssues(t, key, ip, now, granted);
      if granted { IssuedElsewhere(s, t, Store(t, key, ip, now, granted), key, ip); }
    }
  }

  lemma {:induction false} AcquirePermits(s: State, key: string, ip: string, now: int)
    requires PermitsCounted(s)
    ensures PermitsCounted(Acquire(s, key, ip, now))
  {
    var a := Acquire(s, key, ip, now);
    AcquireIssues(s, key, ip, now);
    if Verdict(s, key, ip, now).Granted? {
      IssuedCounted(s, a, key, ip);
    } else {
      SamePermits(s, a);
    }
  }

  lemma {:induction false} AcquireKeepsValid(s: State, key: string, ip: string, now: int)
    requires Valid(s, now)
    ensures Valid(Acquire(s, key, ip, now), now)
  {
    AcquireBuckets(s, key, ip, now);
    AcquireCounters(s, key, ip, now);
    AcquirePermits(s, key, ip, now);
  }

  lemma {:induction false} OpenCounted(s: State, n: nat)
    requires PermitsCounted(s) && IsOpen(s, n)
    ensures Get(s.keyActive, s.permits[n].key) > 0
    ensures Get(s.pairActive, PairBucket(s.permits[n].key, s.permits[n].ip)) > 0
  {
    assert n in OpenOfKey(s, s.permits[n].key) && n in OpenOfPair(s, s.permits[n].key, s.permits[n].ip);
  }

  lemma {:induction false} ReleasedOpenKey(s: State, a: State, n: nat, k: string)
    requires IsOpen(s, n) && a.permits == s.permits[n := s.permits[n].(released := true)]
    ensures |OpenOfKey(a, k)| == |OpenOfKey(s, k)| - (if k == s.permits[n].key then 1 else 0)
  {
    assert forall m :: 0 <= m < |s.permits| && m != n ==> a.permits[m] == s.permits[m];
    assert n !in OpenOfKey(a, k);
    assert OpenOfKey(s, k) == OpenOfKey(a, k) + (if k == s.permits[n].key then {n} else {});
  }

  lemma {:induction false} ReleasedOpenPair(s: State, a: State, n: nat, k: string, i: string)
    requires IsOpen(s, n) && a.permits == s.permits[n := s.permits[n].(released := true)]
    ensures |OpenOfPair(a, k, i)| == |OpenOfPair(s, k, i)| - (if k == s.permits[n].key && i == s.permits[n].ip then 1 else 0)
  {
    assert forall m :: 0 <= m < |s.permits| && m != n ==> a.permits[m] == s.permits[m];
    assert n !in OpenOfPair(a, k, i);
    assert OpenOfPair(s, k, i) == OpenOfPair(a, k, i) + (if k == s.permits[n].key && i == s.permits[n].ip then {n} else {});
  }

  lemma {:induction false} ReleaseCounted(s: State, n: nat)
    requires PermitsCounted(s) && IsOpen(s, n)
    ensures Get(s.keyActive, s.permits[n].key) > 0
    ensures Get(s.pairActive, PairBucket(s.permits[n].key, s.permits[n].ip)) > 0
    ensures PermitsCounted(Release(s, n))
  {
    OpenCounted(s, n);
    var a := Release(s, n);
    forall k ensures Get(a.keyActive, k) == |OpenOfKey(a, k)| <= KEY_CONCURRENCY {
      ReleasedOpenKey(s, a, n, k);
      assert Get(s.keyActive, k) == |OpenOfKey(s, k)|;
    }
    forall k, i ensures Get(a.pairActive, PairBucket(k, i)) == |OpenOfPair(a, k, i)| <= PAIR_CONCURRENCY {
      ReleasedOpenPair(s, a, n, k, i);
      assert Get(s.pairActive, PairBucket(k, i)) == |OpenOfPair(s, k, i)|;
    }
  }

  // ---- runs ----

  /** A call, with its answer, or the release of a permit. */
  datatype Event = Call(key: string, ip: string, at: int, granted: bool) | Done(permit: nat, at: int)

  ghost predicate IsStep(s: State, e: Event, next: State) {
    match e
    case Call(key, ip, at, granted) => next == Acquire(s, key, ip, at) && granted == Verdict(s, key, ip, at).Granted?
    case Done(n, _) => PermitsCounted(s) ==> (if IsOpen(s, n) then OpenCounted(s, n); next == Release(s, n) else next == s)
  }

  ghost predicate StepAt(states: seq<State>, events: seq<Event>, i: nat)
    requires i < |events| < |states|
  {
    IsStep(states[i], events[i], states[i + 1])
  }

  ghost predicate IsRun(states: seq<State>, events: seq<Event>) {
    && |states| == |events| + 1 && states[0] == EMPTY
    && (forall i, j :: 0 <= i <= j < |events| ==> events[i].at <= events[j].at)
    && (forall i :: 0 <= i < |events| ==> StepAt(states, events, i))
  }

  lemma {:induction false} LaterValid(s: State, now: int, later: int)
    requires Valid(s, now) && now <= later
    ensures Valid(s, later)
  {
    forall id | id in s.buckets ensures BucketValid(s, id, later) { assert BucketValid(s, id, now); }
  }

  lemma {:induction false} StepKeepsValid(s: State, e: Event, next: State)
    requires Valid(s, e.at) && IsStep(s, e, next)
    ensures Valid(next, e.at)
  {
    match e
    case Call(key, ip, at, _) => AcquireKeepsValid(s, key, ip, at);
    case Done(n, at) =>
      if IsOpen(s, n) {
        ReleaseCounted(s, n);
        SameOwned(s, next);
        forall id | id in next.buckets ensures BucketValid(next, id, at) { assert BucketValid(s, id, at); }
      }
  }

  lemma {:induction false} RunStepValid(states: seq<State>, events: seq<Event>, n: nat)
    requires IsRun(states, events) && n < |events| && Valid(states[n], events[n].at)
    ensures Valid(states[n + 1], events[n].at)
  {
    assert StepAt(states, events, n);
    StepKeepsValid(states[n], events[n], states[n + 1]);
  }

  /** Every reachable state: live permits, counters and buckets agree, and the bounds 8, 4, 256 and 8192 hold. */
  lemma {:induction false} RunsStayValid(states: seq<State>, events: seq<Event>, n: nat)
    requires IsRun(states, events) && n < |events|
    ensures Valid(states[n], events[n].at) && Valid(states[n + 1], events[n].at)
  {
    if n == 0 {
      EmptyValid(events[0].at);
    } else {
      var last := n - 1;
      RunsStayValid(states, events, last);
      LaterValid(states[n], events[last].at, events[n].at);
    }
    RunStepValid(states, events, n);
  }

  // ---- the token bound ----

  /** The call is granted and takes a token from `id`. */
  predicate Spends(e: Event, id: BucketId) {
    e.Call? && e.granted && (id == KeyBucket(e.key) || id == PairBucket(e.key, e.ip))
  }

  /** What each event takes from `id`. */
  function Costs(events: seq<Event>, id: BucketId): (costs: seq<nat>) {
    seq(|events|, k requires 0 <= k < |events| => if Spends(events[k], id) then 1 else 0)
  }

  function Total(costs: seq<nat>, i: nat, j: nat): nat
    requires i <= j <= |costs|
    decreases j
  {
    if i == j then 0 else Total(costs, i, j - 1) + costs[j - 1]
  }

  /** The granted calls among events i..j that take a token from `id`. */
  function Spent(events: seq<Event>, id: BucketId, i: nat, j: nat): nat
    requires i <= j <= |events|
  {
    Total(Costs(events, id), i, j)
  }

  lemma {:induction false} CallLevel(s: State, key: string, ip: string, at: int, granted: bool, next: State,
      id: BucketId)
    requires BucketsValid(s, at) && next == Acquire(s, key, ip, at) && granted == Verdict(s, key, ip, at).Granted?
    ensures Level(next, id, at) == Level(s, id, at) - (if granted && (id == KeyBucket(key) || id == PairBucket(key, ip)) then 1.0 else 0.0)
  {
    AcquireLevels(s, key, ip, at, id, at);
  }

  lemma {:induction false} StepLevel(s: State, e: Event, next: State, id: BucketId)
    requires Valid(s, e.at) && IsStep(s, e, next)
    ensures Level(next, id, e.at) == Level(s, id, e.at) - (if Spends(e, id) then 1.0 else 0.0)
  {
    match e
    case Call(key, ip, at, granted) => CallLevel(s, key, ip, at, granted, next, id);
    case Done(n, at) => if IsOpen(s, n) { OpenCounted(s, n); }
  }

  lemma {:induction false} SecondsAdd(a: int, b: int, c: int)
    ensures Seconds(c - a) == Seconds(b - a) + Seconds(c - b)
  {
    SplitSeconds(c, b, a);
  }

  lemma {:induction false} RunStepLevel(states: seq<State>, events: seq<Event>, id: BucketId, j: nat)
    requires IsRun(states, events) && j < |events| && Valid(states[j], events[j].at)
    ensures Level(states[j + 1], id, events[j].at) == Level(states[j], id, events[j].at) - (if Spends(events[j], id) then 1.0 else 0.0)
  {
    assert StepAt(states, events, j);
    StepLevel(states[j], events[j], states[j + 1], id);
  }

  /** What event j takes, and what a bucket gains while it waits for it. */
  lemma {:induction false} EventLevels(states: seq<State>, events: seq<Event>, id: BucketId, j: nat)
    requires IsRun(states, events) && j < |events|
    ensures Level(states[j + 1], id, events[j].at) == Level(states[j], id, events[j].at) - (if Spends(events[j], id) then 1.0 else 0.0)
    ensures Level(states[j], id, events[j].at) <= Burst(id)
    ensures j > 0 ==> events[j - 1].at <= events[j].at
    ensures j > 0 ==>
      Level(states[j], id, events[j].at) <= Level(states[j], id, events[j - 1].at) + Seconds(events[j].at - events[j - 1].at) * Rate(id)
  {
    RunsStayValid(states, events, j);
    RunStepLevel(states, events, id, j);
    LevelBounds(states[j], id, events[j].at, events[j].at);
    if j > 0 {
      var i := j - 1;
      RunsStayValid(states, events, i);
      LevelGrows(states[j], id, events[i].at, events[i].at, events[j].at);
    }
  }

  lemma {:induction false} BudgetStep(burst: real, rate: real, spent: real, taken: real, earlier: real, later: real,
      a: real, b: real, c: real)
    requires a <= burst + earlier * rate - spent && b <= a + later * rate && c == b - taken
    ensures c <= burst + (earlier + later) * rate - (spent + taken)
  {
    assert (earlier + later) * rate == earlier * rate + later * rate;
  }

  lemma {:induction false} SpentOneMore(events: seq<Event>, id: BucketId, i: nat, j: nat)
    requires i <= j < |events|
    ensures Spent(events, id, i, i) == 0
    ensures Spent(events, id, i, j + 1) as real == Spent(events, id, i, j) as real + (if Spends(events[j], id) then 1.0 else 0.0)
  {
  }

  /** The level after event j: no more than a full bucket and the refill since event i, less what was spent. */
  lemma {:induction false} LevelBudget(states: seq<State>, events: seq<Event>, id: BucketId, i: nat, j: nat)
    requires IsRun(states, events) && i <= j < |events|
    ensures Level(states[j + 1], id, events[j].at)
      <= Burst(id) + Seconds(events[j].at - events[i].at) * Rate(id) - Spent(events, id, i, j + 1) as real
    decreases j
  {
    EventLevels(states, events, id, j);
    SpentOneMore(events, id, i, j);
    var taken := if Spends(events[j], id) then 1.0 else 0.0;
    if i == j {
      assert Seconds(0) == 0.0;
    } else {
      var last := j - 1;
      LevelBudget(states, events, id, i, last);
      SecondsAdd(events[i].at, events[last].at, events[j].at);
      BudgetStep(Burst(id), Rate(id), Spent(events, id, i, j) as real, taken,
                 Seconds(events[last].at - events[i].at), Seconds(events[j].at - events[last].at),
                 Level(states[j], id, events[last].at), Level(states[j], id, events[j].at), Level(states[j + 1], id, events[j].at));
    }
  }

  /** In any interval of T seconds of any run at most 60 + 30 T calls of a key are granted, and at most
      30 + 15 T of a key and address, evictions and re-creations included. */
  lemma {:induction false} TokenBound(states: seq<State>, events: seq<Event>, id: BucketId, i: nat, j: nat)
    requires IsRun(states, events) && i <= j < |events|
    ensures var seconds := (events[j].at - events[i].at) as real / 1_000_000_000.0;
      Spent(events, id, i, j + 1) as real <= if id.KeyBucket? then 60.0 + 30.0 * seconds else 30.0 + 15.0 * seconds
  {
    LevelBudget(states, events, id, i, j);
    RunsStayValid(states, events, j);
    LevelBounds(states[j + 1], id, events[j].at, events[j].at);
  }

  // ---- a key's counter is the sum over its addresses ----

  function SumActive(s: State, key: string, ips: seq<string>): nat {
    if ips == [] then 0 else SumActive(s, key, ips[..|ips| - 1]) + Get(s.pairActive, PairBucket(key, ips[|ips| - 1]))
  }

  function OpenAmong(s: State, key: string, ips: seq<string>): set<nat> {
    set n | n in OpenOfKey(s, key) && s.permits[n].ip in ips
  }

  lemma {:induction false} OpenAmongSplits(s: State, key: string, init: seq<string>, last: string)
    requires last !in init
    ensures |OpenAmong(s, key, init + [last])| == |OpenAmong(s, key, init)| + |OpenOfPair(s, key, last)|
  {
    assert OpenAmong(s, key, init + [last]) == OpenAmong(s, key, init) + OpenOfPair(s, key, last);
    assert OpenAmong(s, key, init) !! OpenOfPair(s, key, last);
  }

  lemma {:induction false} SumIsOpen(s: State, key: string, ips: seq<string>)
    requires forall ip :: Get(s.pairActive, PairBucket(key, ip)) == |OpenOfPair(s, key, ip)|
    requires forall i, j :: 0 <= i < j < |ips| ==> ips[i] != ips[j]
    ensures SumActive(s, key, ips) == |OpenAmong(s, key, ips)|
  {
    if ips == [] {
      assert OpenAmong(s, key, ips) == {};
    } else {
      var init, last := ips[..|ips| - 1], ips[|ips| - 1];
      SumIsOpen(s, key, init);
      assert ips == init + [last];
      OpenAmongSplits(s, key, init, last);
    }
  }

  /** The key's counter of running calls is the sum of the counters of its addresses. */
  lemma {:induction false} KeyIsSumOfPairs(s: State, key: string, ips: seq<string>)
    requires PermitsCounted(s) && forall i, j :: 0 <= i < j < |ips| ==> ips[i] != ips[j]
    requires forall ip :: PairBucket(key, ip) in s.pairActive ==> ip in ips
    ensures Get(s.keyActive, key) == SumActive(s, key, ips)
  {
    forall ip ensures Get(s.pairActive, PairBucket(key, ip)) == |OpenOfPair(s, key, ip)| {}
    SumIsOpen(s, key, ips);
    forall n | n in OpenOfKey(s, key) ensures s.permits[n].ip in ips {
      OpenCounted(s, n);
    }
    assert OpenAmong(s, key, ips) == OpenOfKey(s, key);
  }
}
