/** `CacheVersion` (tasks/services/cache_version.py): a per-namespace version
    counter kept in the cache, starting at 1. Readers put the current
    version into their cache calls; writers bump it so that everything
    cached under the old version is no longer read. */
module CacheVersions {
  import opened Wrappers
  import opened CacheStore

  /** The version a read returns on a counter state. */
  function ReadVersion(m: map<string, int>, key: string): int {
    if key in m then m[key] else 1
  }

  /** The counter state after a read: a missing counter is stored as 1. */
  function AfterRead(m: map<string, int>, key: string): map<string, int> {
    if key in m then m else m[key := 1]
  }

  /** The counter state after an increment. */
  function AfterIncrement(m: map<string, int>, key: string): map<string, int> {
    m[key := ReadVersion(m, key) + 1]
  }

  class CacheVersion {
    const cacheKey: string

    constructor(cacheKey: string)
      ensures this.cacheKey == cacheKey
    {
      this.cacheKey := cacheKey;
    }

    /** `get_cache_version`: returns the stored version; when there is none,
        stores 1 and returns 1. Only this namespace's counter is written. */
    method GetCacheVersion(store: Counters) returns (version: int)
      modifies store
      ensures version == ReadVersion(old(store.values), cacheKey)
      ensures store.values == AfterRead(old(store.values), cacheKey)
      ensures cacheKey in store.values && store.values[cacheKey] == version
      ensures cacheKey in old(store.values) ==> store.values == old(store.values)
      ensures cacheKey !in old(store.values) ==> version == 1
    {
      var v := store.Get(cacheKey);
      if v.None? {
        version := 1;
        store.Set(cacheKey, version);
      } else {
        version := v.value;
      }
    }

    /** `increment_cache_version`: stores and returns the previous version
        (or 1) plus one. */
    method IncrementCacheVersion(store: Counters) returns (version: int)
      modifies store
      ensures version == ReadVersion(old(store.values), cacheKey) + 1
      ensures store.values == AfterIncrement(old(store.values), cacheKey)
      ensures forall k :: k != cacheKey ==> Lookup(store.values, k) == Lookup(old(store.values), k)
    {
      var current := GetCacheVersion(store);
      version := current + 1;
      store.Set(cacheKey, version);
    }
  }

  /** Every stored version is at least 1: what the two methods above ever
      write. */
  predicate Positive(m: map<string, int>) {
    forall k :: k in m ==> m[k] >= 1
  }

  /** On counters that only these methods wrote, an increment always
      yields at least 2, and the counters stay positive. */
  lemma IncrementAtLeastTwo(m: map<string, int>, key: string)
    requires Positive(m)
    ensures ReadVersion(m, key) + 1 >= 2
    ensures Positive(AfterRead(m, key)) && Positive(AfterIncrement(m, key))
  {
  }

  datatype Op = Read(key: string) | Increment(key: string)

  /** The counter state after a sequence of reads and increments. */
  function Run(m: map<string, int>, ops: seq<Op>): map<string, int>
    decreases |ops|
  {
    if |ops| == 0 then m
    else
      var next := match ops[0]
        case Read(k) => AfterRead(m, k)
        case Increment(k) => AfterIncrement(m, k);
      Run(next, ops[1..])
  }

  /** Across any sequence of reads and increments no namespace's version
      decreases, and a namespace touched by no operation keeps its value. */
  lemma {:induction false} VersionsNeverDecrease(m: map<string, int>, ops: seq<Op>, key: string)
    requires key in m
    ensures key in Run(m, ops) && Run(m, ops)[key] >= m[key]
    ensures (forall i :: 0 <= i < |ops| ==> ops[i].key != key) ==> Run(m, ops)[key] == m[key]
    decreases |ops|
  {
    if |ops| > 0 {
      var next := match ops[0]
        case Read(k) => AfterRead(m, k)
        case Increment(k) => AfterIncrement(m, k);
      assert key in next && next[key] >= m[key];
      assert ops[0].key != key ==> next[key] == m[key];
      VersionsNeverDecrease(next, ops[1..], key);
      assert Run(m, ops) == Run(next, ops[1..]);
      if forall i :: 0 <= i < |ops| ==> ops[i].key != key {
        assert forall i :: 0 <= i < |ops[1..]| ==> ops[1..][i].key != key by {
          forall i | 0 <= i < |ops[1..]| ensures ops[1..][i].key != key {
            assert ops[1..][i] == ops[i + 1];
          }
        }
      }
    }
  }

  /** An increment makes the namespace's version strictly larger than any
      version a reader could have obtained before it. */
  lemma IncrementExceedsRead(m: map<string, int>, key: string)
    ensures ReadVersion(AfterIncrement(m, key), key) > ReadVersion(m, key)
    ensures ReadVersion(AfterIncrement(m, key), key) > ReadVersion(AfterRead(m, key), key)
  {
  }
}
