/** `CachedObjectsTree` and `objects_signal_callback`
    (tasks/services/tree_nodes/cached_tree_nodes.py): the object tree cached
    per user under "CachedObjectsTree:user:<user>" for 60 seconds, and the
    signal handler that makes every cached object tree stale at once. */
module CachedTreeNodes {
  import opened Wrappers
  import opened Text
  import opened Domain
  import opened CacheStore
  import opened TreeBase
  import TreeNodes
  import ObjectForest

  /** The class name, which is also the cache key's prefix. */
  const ClassName: string := "CachedObjectsTree"

  /** The timeout `CachedTree.__init__` defaults to. */
  const Timeout: int := 60

  /** `unique_cache_part`: f"user:{context.get('user', 'none')}"; a user
      renders as their username. */
  function UniqueCachePart(ctx: ContextUser): (s: string)
    ensures StartsWith(s, "user:")
  {
    var who := match ctx
      case NoUserKey => "none"
      case NullUser => "None"
      case SomeUser(u) => u.username;
    assert ("user:" + who)[..5] == "user:";
    "user:" + who
  }

  /** Two users share an entry exactly when they have the same username
      (which Django keeps unique). */
  lemma UserKeysDistinct(a: User, b: User)
    ensures UniqueCachePart(SomeUser(a)) == UniqueCachePart(SomeUser(b)) <==> a.username == b.username
  {
    var ka := UniqueCachePart(SomeUser(a));
    var kb := UniqueCachePart(SomeUser(b));
    assert ka[5..] == a.username && kb[5..] == b.username;
  }

  /** The key an object tree is cached under. */
  function TreeKey(ctx: ContextUser): (k: string)
    ensures StartsWith(k, ClassName + ":")
  {
    assert (ClassName + ":" + UniqueCachePart(ctx))[..|ClassName| + 1] == ClassName + ":";
    ClassName + ":" + UniqueCachePart(ctx)
  }

  /** `CachedObjectsTree(context=...)`. */
  method NewTree(ctx: ContextUser) returns (t: CachedTree)
    ensures fresh(t)
    ensures t.className == ClassName && t.uniqueCachePart == UniqueCachePart(ctx) && t.timeout == Timeout
    ensures t.CacheKey() == TreeKey(ctx)
  {
    t := new CachedTree(ClassName, UniqueCachePart(ctx), Timeout);
  }

  /** `CachedObjectsTree(context).get_cached_nodes()`: a stored tree is
      returned whatever the context holds; on a miss the tree is built from
      the database and stored, unless building it fails (no user). */
  method GetCachedNodes(db: Db, ctx: ContextUser, counters: Counters, cache: Cache<seq<Node>>)
    returns (r: Result<seq<Node>, TreeNodes.TreeError>)
    modifies cache
    ensures var a := Address(TreeKey(ctx), GlobalVersion(counters.values, ClassName));
      && (a in old(cache.entries) ==>
            r == Ok(old(cache.entries)[a]) && cache.entries == old(cache.entries))
      && (a !in old(cache.entries) && ctx.SomeUser? ==>
            r == Ok(ObjectForest.Forest(TreeNodes.ObjectRows(db, ctx).value))
            && cache.entries == old(cache.entries)[a := r.value])
      && (a !in old(cache.entries) && !ctx.SomeUser? ==>
            r == Err(TreeNodes.AttributeError) && cache.entries == old(cache.entries))
    ensures Coherent(counters.values, old(cache.entries), ClassName) ==>
      Coherent(counters.values, cache.entries, ClassName)
  {
    var tree := NewTree(ctx);
    var cached := tree.GetCache(counters, cache);
    if cached.Some? {
      return Ok(cached.value);
    }
    r := TreeNodes.ObjectsTreeNodes(db, ctx);
    if r.Ok? {
      tree.SetCache(counters, cache, r.value);
    }
  }

  /** `objects_signal_callback`: raises the class's version by one. */
  method ObjectsSignalCallback(counters: Counters)
    modifies counters
    ensures counters.values == AfterIncrementGlobal(old(counters.values), ClassName)
    ensures GlobalVersion(counters.values, ClassName) == GlobalVersion(old(counters.values), ClassName) + 1
  {
    var tree := NewTree(NoUserKey);
    tree.IncrementGlobalVersion(counters);
  }

  /** After the callback no user's stored tree is found: the next
      `get_cached_nodes` of every context rebuilds from the database. */
  lemma SignalForcesRebuild(m: map<string, int>, entries: map<Address, seq<Node>>, ctx: ContextUser)
    requires Coherent(m, entries, ClassName)
    ensures Address(TreeKey(ctx), GlobalVersion(AfterIncrementGlobal(m, ClassName), ClassName)) !in entries
  {
    BumpInvalidates(m, entries, ClassName, TreeKey(ctx));
  }
}
