/** Django's `QueryDict` as the application reads it: the parsed query string,
    a sequence of (key, value) pairs in URL order. `get` returns a key's last
    value, `getlist` all of them, and `items()` yields every key once, in
    first-appearance order, with its last value. Parsing never produces a
    key without a value, so "no value" and "absent" coincide. */
module QueryParams {
  import opened Wrappers
  import opened Seqs

  type Pair = (string, string)
  type Query = seq<Pair>

  /** `getlist(key)`: every value of the key, in URL order. */
  function GetList(q: Query, key: string): (r: seq<string>)
    ensures |r| <= |q|
    ensures forall v :: v in r <==> (key, v) in q
  {
    if |q| == 0 then []
    else
      var init := q[..|q| - 1];
      var last := q[|q| - 1];
      assert forall p :: p in q <==> p in init || p == last by {
        LastSplit(q);
      }
      GetList(init, key) + (if last.0 == key then [last.1] else [])
  }

  /** `get(key)`: the key's last value, None when the key is absent. */
  function Get(q: Query, key: string): (r: Option<string>)
    ensures r.Some? <==> exists v :: (key, v) in q
    ensures r.Some? ==> (key, r.value) in q
  {
    if |q| == 0 then None
    else
      var init := q[..|q| - 1];
      var last := q[|q| - 1];
      assert forall p :: p in q <==> p in init || p == last by {
        assert q == init + [last];
      }
      if last.0 == key then Some(last.1) else Get(init, key)
  }

  /** `get` agrees with `getlist`: the value is the list's last element. */
  lemma {:induction false} GetIsLastOfList(q: Query, key: string)
    ensures Get(q, key).Some? <==> |GetList(q, key)| > 0
    ensures Get(q, key).Some? ==> Get(q, key).value == GetList(q, key)[|GetList(q, key)| - 1]
  {
    if |q| > 0 {
      GetIsLastOfList(q[..|q| - 1], key);
    }
  }

  /** The lists of a query split along a split of its pairs. */
  lemma {:induction false} GetListAppend(a: Query, b: Query, k: string)
    ensures GetList(a + b, k) == GetList(a, k) + GetList(b, k)
    decreases |b|
  {
    if |b| > 0 {
      var init := b[..|b| - 1];
      GetListAppend(a, init, k);
      assert (a + b)[..|a + b| - 1] == a + init;
    } else {
      assert a + b == a;
    }
  }

  /** One more pair adds its value to its own key's list only. */
  lemma GetListSnoc(q: Query, p: Pair, k: string)
    ensures GetList(q + [p], k) == GetList(q, k) + (if p.0 == k then [p.1] else [])
  {
    assert (q + [p])[..|q|] == q;
  }

  /** Dropping a key's pairs empties its list and keeps every other one. */
  lemma {:induction false} OthersGetList(q: Query, key: string, k: string)
    ensures GetList(Where(q, (p: Pair) => p.0 != key), k) == if k == key then [] else GetList(q, k)
    decreases |q|
  {
    var keep := (p: Pair) => p.0 != key;
    if |q| > 0 {
      var init := q[..|q| - 1];
      var last := q[|q| - 1];
      OthersGetList(init, key, k);
      LastSplit(q);
      WhereSnoc(init, last, keep);
      GetListSnoc(init, last, k);
      if keep(last) {
        GetListSnoc(Where(init, keep), last, k);
      } else {
        assert Where(q, keep) == Where(init, keep);
      }
    }
  }

  /** `get(key, default)`. */
  function GetOr(q: Query, key: string, default: string): string {
    Get(q, key).GetOr(default)
  }

  /** The query's keys, each once, in first-appearance order: the order of
      `items()` and of `keys()`. */
  function Keys(q: Query): (r: seq<string>)
    ensures NoDup(r)
    ensures forall k :: k in r <==> Get(q, k).Some?
  {
    Dedup(PairKeys(q))
  }

  /** The key of every pair, repeats included. */
  function PairKeys(q: Query): (r: seq<string>)
    ensures forall k :: k in r <==> exists v :: (k, v) in q
  {
    if |q| == 0 then []
    else
      var init := q[..|q| - 1];
      var last := q[|q| - 1];
      assert forall p :: p in q <==> p in init || p == last by {
        assert q == init + [last];
      }
      PairKeys(init) + [last.0]
  }

  /** `if data.get(key) is None: data[key] = value` on a mutable copy: an
      absent key is appended, a present one keeps its values. */
  function SetDefault(q: Query, key: string, value: string): (r: Query)
    ensures Get(r, key) == Some(Get(q, key).GetOr(value))
    ensures forall k :: k != key ==> Get(r, k) == Get(q, k) && GetList(r, k) == GetList(q, k)
    ensures Get(q, key).Some? ==> r == q
  {
    if Get(q, key).Some? then q else q + [(key, value)]
  }

  /** A key set by default is counted among the keys only when it was
      absent before. */
  lemma SetDefaultKeys(q: Query, key: string, value: string, k: string)
    ensures k in Keys(SetDefault(q, key, value)) <==> k in Keys(q) || k == key
  {
  }
}
