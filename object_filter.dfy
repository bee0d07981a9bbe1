/** tasks/filters.py, `ObjectFilter`: the filter set of the object list. Its
    fields are `search` (a method filter on name and description) and the
    model fields `tags`, `groups` and `priority`. Each field tests a single
    row and a field left empty, or one that does not validate, tests
    nothing, so the filter keeps, in their order, the rows that pass the
    tests of the fields that are set. */
module ObjectFilters {
  import opened Wrappers
  import opened Text
  import opened Seqs
  import opened Sorting
  import opened Domain
  import opened QueryParams
  import opened TaskQuery
  import opened Filters

  function GroupIds(groups: seq<Group>): (r: seq<Id>)
    ensures forall id :: id in r <==> exists g :: g in groups && g.id == id
  {
    if |groups| == 0 then []
    else
      assert forall g :: g in groups <==> g == groups[0] || g in groups[1..] by {
        assert groups == [groups[0]] + groups[1..];
      }
      [groups[0].id] + GroupIds(groups[1..])
  }

  /** `search_filter`: the name or the description contains the stripped
      value, ignoring case. */
  predicate SearchPasses(data: Query, o: Obj) {
    var v := CharValue(data, "search");
    v == "" || IContains(o.name, v) || IContains(o.description, v)
  }

  /** A many-to-many filter: the row is linked to any of the chosen ids. */
  predicate LinkedToAny(chosen: Option<seq<Id>>, linked: seq<Id>) {
    chosen.None? || |chosen.value| == 0 || exists id :: id in chosen.value && id in linked
  }

  predicate TagsPass(db: Db, data: Query, o: Obj) {
    LinkedToAny(ChosenIds(GetList(data, "tags"), TagIds(db.tags)), o.tags)
  }

  predicate GroupsPass(db: Db, data: Query, o: Obj) {
    LinkedToAny(ChosenIds(GetList(data, "groups"), GroupIds(db.groups)), o.groups)
  }

  /** `priority`: one of the four choices, matched exactly. */
  predicate PriorityPasses(data: Query, o: Obj) {
    var v := QueryParams.GetOr(data, "priority", "");
    v == "" || v !in Priorities || o.priority == v
  }

  predicate Passes(db: Db, data: Query, o: Obj) {
    SearchPasses(data, o) && TagsPass(db, data, o) && GroupsPass(db, data, o) && PriorityPasses(data, o)
  }

  /** `ObjectFilter(data, queryset=rows).qs`, for rows that each carry an
      object (the list's rows carry their annotations along). */
  function FilterObjects<T(!new)>(db: Db, data: Query, rows: seq<T>, obj: T -> Obj): (r: seq<T>)
    ensures |r| <= |rows|
    ensures forall x :: x in r <==> x in rows && Passes(db, data, obj(x))
  {
    Where(rows, (x: T) => Passes(db, data, obj(x)))
  }

  /** The filter keeps rows distinct and keeps them in the order a sort
      put them in. */
  lemma FilterObjectsKeepsOrder<T(!new)>(db: Db, data: Query, rows: seq<T>, obj: T -> Obj, key: T -> Key)
    requires NoDup(rows) && SortedBy(rows, key)
    ensures NoDup(FilterObjects(db, data, rows, obj))
    ensures SortedBy(FilterObjects(db, data, rows, obj), key)
  {
    WhereNoDup(rows, (x: T) => Passes(db, data, obj(x)));
    WhereSorted(rows, (x: T) => Passes(db, data, obj(x)), key);
  }

  /** Without any parameter the filter keeps every row, in order. */
  lemma NoParamsKeepsAll<T(!new)>(db: Db, rows: seq<T>, obj: T -> Obj)
    ensures FilterObjects(db, [], rows, obj) == rows
  {
    assert Strip("") == "";
    WhereAll(rows, (x: T) => Passes(db, [], obj(x)));
  }

  /** Filtering again with the same parameters changes nothing. */
  lemma FilterObjectsIdempotent<T(!new)>(db: Db, data: Query, rows: seq<T>, obj: T -> Obj)
    ensures FilterObjects(db, data, FilterObjects(db, data, rows, obj), obj) == FilterObjects(db, data, rows, obj)
  {
    WhereIdempotent(rows, (x: T) => Passes(db, data, obj(x)));
  }

  /** Choosing tags that all exist keeps exactly the rows linked to one of
      them, as far as the tag field decides. */
  lemma TagsChosen(db: Db, data: Query, tags: seq<Tag>, o: Obj)
    requires |tags| > 0
    requires forall t :: t in tags ==> t in db.tags
    requires GetList(data, "tags") == TagValues(tags)
    ensures TagsPass(db, data, o) <==> exists t :: t in tags && t.id in o.tags
  {
    ChosenTags(db, tags);
    var ids := ChosenIds(TagValues(tags), TagIds(db.tags)).value;
    if TagsPass(db, data, o) {
      var id :| id in ids && id in o.tags;
      var i :| 0 <= i < |ids| && ids[i] == id;
      assert tags[i] in tags && tags[i].id in o.tags;
    } else {
      forall t | t in tags ensures t.id !in o.tags {
        var i :| 0 <= i < |tags| && tags[i] == t;
        assert ids[i] in ids;
      }
    }
  }

  /** The submitted values that name the given tags. */
  function TagValues(tags: seq<Tag>): (r: seq<string>)
    ensures |r| == |tags|
    ensures forall i :: 0 <= i < |tags| ==> r[i] == NatToString(tags[i].id)
  {
    seq(|tags|, i requires 0 <= i < |tags| => NatToString(tags[i].id))
  }

  /** Values naming existing tags validate to those tags' ids. */
  lemma {:induction false} ChosenTags(db: Db, tags: seq<Tag>)
    requires forall t :: t in tags ==> t in db.tags
    ensures var r := ChosenIds(TagValues(tags), TagIds(db.tags));
      r.Some? && |r.value| == |tags| && forall i :: 0 <= i < |tags| ==> r.value[i] == tags[i].id
    decreases |tags|
  {
    if |tags| > 0 {
      var vs := TagValues(tags);
      assert vs[1..] == TagValues(tags[1..]);
      ChosenTags(db, tags[1..]);
      PkOfExact(vs[0], tags[0].id);
      assert tags[0].id in TagIds(db.tags);
    }
  }
}
