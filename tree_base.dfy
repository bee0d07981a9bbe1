/** `Node` and `CachedTree` (tasks/services/tree_nodes/base.py): a tree
    whose nodes are cached under "<class name>:<unique part>", with the
    version taken from a per-class counter "<class name>:version". Raising
    that counter makes every entry of the class unreachable at once. */
module TreeBase {
  import opened Wrappers
  import opened Text
  import opened CacheStore
  import Domain

  /** What a tree's context dict holds under "user": no such key, the
      value None, or a user. */
  datatype ContextUser = NoUserKey | NullUser | SomeUser(user: Domain.User)

  /** `context.get("user", None)`. */
  function UserOrNone(c: ContextUser): Option<Domain.User> {
    if c.SomeUser? then Some(c.user) else None
  }

  datatype NodeId = IntId(n: nat) | StrId(s: string)

  /** A tree node: a dict with "id" and "label" (stored as `caption`), and
      in the second form also a "children" list (possibly empty). */
  datatype Node =
    | Plain(id: NodeId, caption: string)
    | WithChildren(id: NodeId, caption: string, children: seq<Node>)

  function VersionKey(className: string): string {
    className + ":version"
  }

  /** `get_global_version` on a counter state: 1 when no counter is stored. */
  function GlobalVersion(m: map<string, int>, className: string): int {
    var k := VersionKey(className);
    if k in m then m[k] else 1
  }

  /** `increment_global_version` on a counter state: `incr`, or 2 when the
      counter is missing (the implicit 1 plus one). */
  function AfterIncrementGlobal(m: map<string, int>, className: string): (r: map<string, int>)
    ensures GlobalVersion(r, className) == GlobalVersion(m, className) + 1
    ensures forall k :: k != VersionKey(className) ==> Lookup(r, k) == Lookup(m, k)
  {
    var k := VersionKey(className);
    if k in m then m[k := m[k] + 1] else m[k := 2]
  }

  /** Every cached entry of the class is stored at a version no newer than
      the class's current version. */
  predicate Coherent(m: map<string, int>, entries: map<Address, seq<Node>>, className: string) {
    forall a :: a in entries && StartsWith(a.key, className + ":") ==>
      a.version <= GlobalVersion(m, className)
  }

  /** After a bump nothing written before it can be read: the new version
      is newer than every stored entry of the class. */
  lemma BumpInvalidates(m: map<string, int>, entries: map<Address, seq<Node>>, className: string, key: string)
    requires Coherent(m, entries, className)
    requires StartsWith(key, className + ":")
    ensures Address(key, GlobalVersion(AfterIncrementGlobal(m, className), className)) !in entries
    ensures Coherent(AfterIncrementGlobal(m, className), entries, className)
  {
  }

  class CachedTree {
    /** `base_cache_key`: the concrete class's name. */
    const className: string
    /** `unique_cache_part`, fixed by the concrete class and its context. */
    const uniqueCachePart: string
    const timeout: int

    constructor(className: string, uniqueCachePart: string, timeout: int)
      ensures this.className == className && this.uniqueCachePart == uniqueCachePart
      ensures this.timeout == timeout
    {
      this.className := className;
      this.uniqueCachePart := uniqueCachePart;
      this.timeout := timeout;
    }

    /** `cache_key`: exactly the class name, ":", then the unique part. */
    function CacheKey(): (k: string)
      ensures StartsWith(k, className + ":")
      ensures k[|className| + 1..] == uniqueCachePart
      ensures |k| == |className| + 1 + |uniqueCachePart|
    {
      assert (className + ":" + uniqueCachePart)[..|className| + 1] == className + ":";
      className + ":" + uniqueCachePart
    }

    method GetGlobalVersion(counters: Counters) returns (v: int)
      ensures v == GlobalVersion(counters.values, className)
    {
      var stored := counters.Get(VersionKey(className));
      v := stored.GetOr(1);
    }

    method IncrementGlobalVersion(counters: Counters)
      modifies counters
      ensures counters.values == AfterIncrementGlobal(old(counters.values), className)
    {
      var r := counters.Incr(VersionKey(className));
      if r.Err? {
        counters.Set(VersionKey(className), 2);
      }
    }

    /** `get_cache`: the entry at the current version, None on a miss. */
    method GetCache(counters: Counters, cache: Cache<seq<Node>>) returns (r: Option<seq<Node>>)
      ensures r == Lookup(cache.entries, Address(CacheKey(), GlobalVersion(counters.values, className)))
    {
      var version := GetGlobalVersion(counters);
      r := cache.Get(CacheKey(), version);
    }

    /** `set_cache`: a `get_cache` right after it returns the nodes. */
    method SetCache(counters: Counters, cache: Cache<seq<Node>>, nodes: seq<Node>)
      modifies cache
      ensures cache.entries == old(cache.entries)[Address(CacheKey(), GlobalVersion(counters.values, className)) := nodes]
      ensures Lookup(cache.entries, Address(CacheKey(), GlobalVersion(counters.values, className))) == Some(nodes)
      ensures Coherent(counters.values, old(cache.entries), className) ==>
        Coherent(counters.values, cache.entries, className)
    {
      var version := GetGlobalVersion(counters);
      cache.Set(CacheKey(), version, nodes);
    }

    /** `clear_cache`: deletes without a version argument, hence only the
        entry at the default version 1. */
    method ClearCache(cache: Cache<seq<Node>>)
      modifies cache
      ensures cache.entries == old(cache.entries) - {Address(CacheKey(), DefaultVersion)}
    {
      cache.Delete(CacheKey(), DefaultVersion);
    }

    /** `get_cached_nodes`: a stored value, even an empty list, is a hit and
        is returned as is; on a miss (None) the freshly computed nodes
        (`get_nodes()`, passed in) are stored and returned. */
    method GetCachedNodes(counters: Counters, cache: Cache<seq<Node>>, computed: seq<Node>)
      returns (data: seq<Node>, miss: bool)
      modifies cache
      ensures var a := Address(CacheKey(), GlobalVersion(counters.values, className));
        && miss == (a !in old(cache.entries))
        && (!miss ==> data == old(cache.entries)[a] && cache.entries == old(cache.entries))
        && (miss ==> data == computed && cache.entries == old(cache.entries)[a := computed])
      ensures Coherent(counters.values, old(cache.entries), className) ==>
        Coherent(counters.values, cache.entries, className)
    {
      var cached := GetCache(counters, cache);
      miss := cached.None?;
      if miss {
        data := computed;
        SetCache(counters, cache, data);
      } else {
        data := cached.value;
      }
    }
  }
}
