/** The Django cache as the application uses it: entries are addressed by a
    key and a version, and calls that pass no version use the default
    version 1. The version counters (plain integers the application keeps
    under their own keys) and the cached values are held in two separate
    stores; their key spaces never meet, since every counter key names a
    counter ("...cache_version...", "<class>:version") and no cached value
    uses such a key. Expiry (timeouts) is not modelled. */
module CacheStore {
  import opened Wrappers

  /** The version Django uses when a call passes none (settings.VERSION). */
  const DefaultVersion: int := 1

  datatype Address = Address(key: string, version: int)

  datatype CacheError = MissingKey

  function Lookup<K, V>(m: map<K, V>, k: K): (r: Option<V>)
    ensures r.Some? <==> k in m
    ensures r.Some? ==> r.value == m[k]
  {
    if k in m then Some(m[k]) else None
  }

  /** Integer counters stored under the default version. */
  class Counters {
    var values: map<string, int>

    constructor(init: map<string, int>)
      ensures values == init
    {
      values := init;
    }

    /** `cache.get(key)`. */
    method Get(key: string) returns (r: Option<int>)
      ensures r == Lookup(values, key)
    {
      r := Lookup(values, key);
    }

    /** `cache.set(key, v)`. */
    method Set(key: string, v: int)
      modifies this
      ensures values == old(values)[key := v]
    {
      values := values[key := v];
    }

    /** `cache.incr(key)`: adds one to a stored counter; a missing key raises
        ValueError and changes nothing. */
    method Incr(key: string) returns (r: Result<int, CacheError>)
      modifies this
      ensures key in old(values) ==>
        r == Ok(old(values)[key] + 1) && values == old(values)[key := old(values)[key] + 1]
      ensures key !in old(values) ==> r == Err(MissingKey) && values == old(values)
    {
      if key in values {
        values := values[key := values[key] + 1];
        r := Ok(values[key]);
      } else {
        r := Err(MissingKey);
      }
    }
  }

  /** Cached values of one payload type, addressed by (key, version). */
  class Cache<V> {
    var entries: map<Address, V>

    constructor(init: map<Address, V>)
      ensures entries == init
    {
      entries := init;
    }

    /** `cache.get(key, version=version)`: None on a miss. */
    method Get(key: string, version: int) returns (r: Option<V>)
      ensures r == Lookup(entries, Address(key, version))
    {
      r := Lookup(entries, Address(key, version));
    }

    /** `cache.set(key, value, version=version)`. */
    method Set(key: string, version: int, value: V)
      modifies this
      ensures entries == old(entries)[Address(key, version) := value]
    {
      entries := entries[Address(key, version) := value];
    }

    /** `cache.delete(key, version=version)`. */
    method Delete(key: string, version: int)
      modifies this
      ensures entries == old(entries) - {Address(key, version)}
    {
      entries := entries - {Address(key, version)};
    }
  }
}
