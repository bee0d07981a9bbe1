/** static/self/js/filters.js, `toggleFilter`: the buttons above the task
    list rewrite the two toggle parameters of the page's query string and
    load the page again with it. `URLSearchParams` is a class over the
    query's pairs; its `set` behaves as the URL Standard defines it. The
    new query string is the query the server reads on the next request
    (the percent-encoding round trip is not part of this model). */
module FiltersJs {
  import opened Wrappers
  import opened Seqs
  import opened QueryParams
  import Domain
  import Filters

  const ActiveKey := "show_active_task"
  const DoneKey := "show_done_task"

  /** Pairs the toggle never touches. */
  const Untouched: Pair -> bool := (p: Pair) => p.0 != ActiveKey && p.0 != DoneKey

  /** A JavaScript value as the template hands it to the handler. */
  datatype JsValue = JsBool(b: bool) | JsNull | JsString(s: string)

  /** JavaScript truthiness of the values the handler receives. */
  predicate Truthy(v: JsValue) {
    match v
    case JsBool(b) => b
    case JsNull => false
    case JsString(s) => s != ""
  }

  /** `v === false`. */
  predicate IsFalse(v: JsValue) {
    v == JsBool(false)
  }

  /** `URLSearchParams.set(name, value)`: the first pair named name gets the
      value and the others named name go; without one, the pair is
      appended. Pairs with other names stay as they were, in order. */
  function SetParam(q: Query, name: string, value: string): (r: Query)
    ensures GetList(r, name) == [value]
    ensures Where(r, (p: Pair) => p.0 != name) == Where(q, (p: Pair) => p.0 != name)
  {
    if Get(q, name).Some? then
      ReplaceFirst(q, name, value)
    else
      GetIsLastOfList(q, name);
      GetListSnoc(q, (name, value), name);
      WhereSnoc(q, (name, value), (p: Pair) => p.0 != name);
      q + [(name, value)]
  }

  function ReplaceFirst(q: Query, name: string, value: string): (r: Query)
    ensures Get(q, name).Some? ==> GetList(r, name) == [value]
    ensures Where(r, (p: Pair) => p.0 != name) == Where(q, (p: Pair) => p.0 != name)
    decreases |q|
  {
    if |q| == 0 then []
    else if q[0].0 == name then
      ReplaceHere(q, name, value);
      [(name, value)] + Where(q[1..], (p: Pair) => p.0 != name)
    else
      var tail := ReplaceFirst(q[1..], name, value);
      ReplaceLater(q, name, value, tail);
      [q[0]] + tail
  }

  /** The first pair named name is at the head: it takes the value and the
      later ones named name go. */
  lemma ReplaceHere(q: Query, name: string, value: string)
    requires |q| > 0 && q[0].0 == name
    ensures var r := [(name, value)] + Where(q[1..], (p: Pair) => p.0 != name);
      GetList(r, name) == [value]
      && Where(r, (p: Pair) => p.0 != name) == Where(q, (p: Pair) => p.0 != name)
  {
    var other := (p: Pair) => p.0 != name;
    var rest := Where(q[1..], other);
    WhereIdempotent(q[1..], other);
    WhereCons([(name, value)], rest, other);
    assert [(name, value)][1..] + rest == rest;
    OthersGetList(q[1..], name, name);
    GetListAppend([(name, value)], rest, name);
    GetListSingle((name, value), name);
  }

  /** The head pair has another name: it stays, and the replacement
      happens in the tail. */
  lemma ReplaceLater(q: Query, name: string, value: string, tail: Query)
    requires |q| > 0 && q[0].0 != name
    requires Get(q[1..], name).Some? ==> GetList(tail, name) == [value]
    requires Where(tail, (p: Pair) => p.0 != name) == Where(q[1..], (p: Pair) => p.0 != name)
    ensures Get(q, name).Some? ==> GetList([q[0]] + tail, name) == [value]
    ensures Where([q[0]] + tail, (p: Pair) => p.0 != name) == Where(q, (p: Pair) => p.0 != name)
  {
    var other := (p: Pair) => p.0 != name;
    WhereCons([q[0]], tail, other);
    assert [q[0]][1..] + tail == tail;
    if Get(q, name).Some? {
      var v :| (name, v) in q;
      assert q == [q[0]] + q[1..];
      assert (name, v) in q[1..];
    }
    GetListAppend([q[0]], tail, name);
    GetListSingle(q[0], name);
  }

  lemma GetListSingle(p: Pair, k: string)
    ensures GetList([p], k) == if p.0 == k then [p.1] else []
  {
    GetListSnoc([], p, k);
    assert [] + [p] == [p];
  }

  /** `set` leaves every other name's values, and its `get`, alone. */
  lemma SetParamOthers(q: Query, name: string, value: string, k: string)
    requires k != name
    ensures GetList(SetParam(q, name, value), k) == GetList(q, k)
    ensures Get(SetParam(q, name, value), k) == Get(q, k)
  {
    var r := SetParam(q, name, value);
    OthersGetList(r, name, k);
    OthersGetList(q, name, k);
    GetIsLastOfList(r, k);
    GetIsLastOfList(q, k);
    if Get(q, k).Some? {
      assert Get(r, k).Some?;
    }
  }

  /** `set` on a toggle parameter keeps every pair the toggle does not
      own, in order. */
  lemma SetParamUntouched(q: Query, name: string, value: string)
    requires name == ActiveKey || name == DoneKey
    ensures Where(SetParam(q, name, value), Untouched) == Where(q, Untouched)
  {
    var other := (p: Pair) => p.0 != name;
    WhereWhere(SetParam(q, name, value), other, Untouched, Untouched);
    WhereWhere(q, other, Untouched, Untouched);
  }

  /** The handler's `urlParams`: the page's query pairs, changed in place
      by `set`. */
  class SearchParams {
    var pairs: Query

    constructor (search: Query)
      ensures pairs == search
    {
      pairs := search;
    }

    method Set(name: string, value: string)
      modifies this
      ensures pairs == SetParam(old(pairs), name, value)
      ensures Get(pairs, name) == Some(value)
      ensures name == ActiveKey ==> Get(pairs, DoneKey) == Get(old(pairs), DoneKey)
      ensures name == DoneKey ==> Get(pairs, ActiveKey) == Get(old(pairs), ActiveKey)
      ensures name == ActiveKey || name == DoneKey ==> Where(pairs, Untouched) == Where(old(pairs), Untouched)
    {
      var before := pairs;
      pairs := SetParam(pairs, name, value);
      GetIsLastOfList(pairs, name);
      if name == ActiveKey || name == DoneKey {
        SetParamOthers(before, name, value, if name == ActiveKey then DoneKey else ActiveKey);
        SetParamUntouched(before, name, value);
      }
    }
  }

  /** `toggleFilter(filterName, currentValue, secondFilterName,
      secondFilterValue)`: the query of the page it loads. The "active"
      button shows active tasks only, the "done" button done ones only,
      and the middle button, whenever one of its two groups is off, turns
      both on, overriding the other two rules. Every other parameter is
      kept, in order. */
  method ToggleFilter(search: Query, filterName: string, currentValue: JsValue,
                      secondFilterName: JsValue, secondFilterValue: JsValue) returns (next: Query)
    ensures var both := Truthy(secondFilterName) && (IsFalse(currentValue) || IsFalse(secondFilterValue));
      && (both ==> Get(next, ActiveKey) == Some("true") && Get(next, DoneKey) == Some("true"))
      && (!both && filterName == ActiveKey ==>
            Get(next, ActiveKey) == Some("true") && Get(next, DoneKey) == Some("false"))
      && (!both && filterName == DoneKey ==>
            Get(next, ActiveKey) == Some("false") && Get(next, DoneKey) == Some("true"))
      && (!both && filterName != ActiveKey && filterName != DoneKey ==> next == search)
    ensures Where(next, Untouched) == Where(search, Untouched)
  {
    var urlParams := new SearchParams(search);
    if filterName == ActiveKey {
      urlParams.Set(ActiveKey, "true");
      urlParams.Set(DoneKey, "false");
    }
    if filterName == DoneKey {
      urlParams.Set(DoneKey, "true");
      urlParams.Set(ActiveKey, "false");
    }
    if Truthy(secondFilterName) && (IsFalse(currentValue) || IsFalse(secondFilterValue)) {
      urlParams.Set(ActiveKey, "true");
      urlParams.Set(DoneKey, "true");
    }
    next := urlParams.pairs;
  }

  /** Queries that agree on the pairs the toggle does not own give the
      same values for every other parameter. */
  lemma UntouchedSameValues(a: Query, b: Query, k: string)
    requires Where(a, Untouched) == Where(b, Untouched)
    requires k != ActiveKey && k != DoneKey
    ensures GetList(a, k) == GetList(b, k) && Get(a, k) == Get(b, k)
  {
    UntouchedValues(a, k);
    UntouchedValues(b, k);
    GetIsLastOfList(a, k);
    GetIsLastOfList(b, k);
  }

  lemma UntouchedValues(q: Query, k: string)
    requires k != ActiveKey && k != DoneKey
    ensures GetList(Where(q, Untouched), k) == GetList(q, k)
  {
    var notActive := (p: Pair) => p.0 != ActiveKey;
    var first := Where(q, notActive);
    WhereWhere(q, notActive, (p: Pair) => p.0 != DoneKey, Untouched);
    OthersGetList(first, DoneKey, k);
    OthersGetList(q, ActiveKey, k);
  }

  // ------------------------------------------- what the server then shows

  /** The page the "active" button loads lists exactly the tasks that are
      not done. */
  lemma ActiveButtonShowsActive(db: Domain.Db, next: Query, ts: seq<Domain.Task>, t: Domain.Task)
    requires Get(next, ActiveKey) == Some("true") && Get(next, DoneKey) == Some("false")
    ensures t in Filters.FilterByDone(db, Filters.DoneDefaults(next), ts) <==> t in ts && !t.isDone
  {
    assert Filters.DoneDefaults(next) == next;
    Filters.ActiveOnly(db, next, ts, t);
  }

  /** The page the "done" button loads lists exactly the done tasks. */
  lemma DoneButtonShowsDone(db: Domain.Db, next: Query, ts: seq<Domain.Task>, t: Domain.Task)
    requires Get(next, ActiveKey) == Some("false") && Get(next, DoneKey) == Some("true")
    ensures t in Filters.FilterByDone(db, Filters.DoneDefaults(next), ts) <==> t in ts && t.isDone
  {
    assert Filters.DoneDefaults(next) == next;
    Filters.NullBoolWords();
    Filters.FilterByDoneIsToggle(db, next, ts);
    assert "false" != "true";
    Filters.ToggleMeaning(db, next, ts, t);
  }

  /** The page the middle button loads lists every task. */
  lemma BothButtonShowsAll(db: Domain.Db, next: Query, ts: seq<Domain.Task>, t: Domain.Task)
    requires Get(next, ActiveKey) == Some("true") && Get(next, DoneKey) == Some("true")
    ensures t in Filters.FilterByDone(db, Filters.DoneDefaults(next), ts) <==> t in ts
  {
    assert Filters.DoneDefaults(next) == next;
    Filters.NullBoolWords();
    Filters.FilterByDoneIsToggle(db, next, ts);
    Filters.ToggleMeaning(db, next, ts, t);
  }
}
