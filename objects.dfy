/** tasks/services/objects.py and tasks/services/many_objects.py: the list
    of objects a user may see with its annotations, the object page, the
    cached reads in front of both, and the cache entries an edit drops.

    An object is visible to a user who belongs to one of its groups; this
    holds for administrators too. The list is ordered by parent id, then by
    id descending; where objects without a parent go is the database's
    choice (PostgreSQL puts them last, SQLite first), so it is a parameter. */
module Objects {
  import opened Wrappers
  import opened Text
  import opened Seqs
  import opened Sorting
  import opened Domain
  import opened QueryParams
  import opened TaskQuery
  import opened CacheStore
  import opened CacheVersions
  import TasksPrepare
  import ObjectFilters
  import Service
  import Models

  // ------------------------------------------------------- annotations

  /** `short_description`: the description, cut to its first 50
      characters followed by "..." when it is longer than 53. */
  function ShortDescription(d: string): (r: string)
    ensures |r| <= 53
    ensures r == d <==> |d| <= 53
    ensures |d| > 53 ==> |r| == 53 && r[..50] == d[..50] && r[50..] == "..."
  {
    if |d| > 53 then d[..50] + "..." else d
  }

  predicate EndsWith(s: string, suffix: string) {
    |suffix| <= |s| && s[|s| - |suffix|..] == suffix
  }

  /** `file__iregex=r"\.(jpeg|jpg|png)$"` on the stored file name. */
  predicate IsImageName(name: string) {
    var n := LowerStr(name);
    EndsWith(n, ".jpeg") || EndsWith(n, ".jpg") || EndsWith(n, ".png")
  }

  /** `.order_by(...).first()` on a unique integer key: the earliest row
      with the smallest key. */
  function FirstBy<T>(s: seq<T>, key: T -> int): (r: Option<T>)
    ensures r.None? <==> |s| == 0
    ensures r.Some? ==> r.value in s && forall x :: x in s ==> key(r.value) <= key(x)
  {
    if |s| == 0 then None
    else
      var rest := FirstBy(s[1..], key);
      assert forall x :: x in s ==> x == s[0] || x in s[1..] by {
        assert s == [s[0]] + s[1..];
      }
      if rest.None? || key(s[0]) <= key(rest.value) then Some(s[0]) else rest
  }

  /** The object's attached files, in table order (`obj.files.all()`). */
  function ObjectFiles(db: Db, o: Obj): (r: seq<AttachedFile>)
    ensures forall f :: f in r <==> f in db.files && f.id in o.files
  {
    Where(db.files, (f: AttachedFile) => f.id in o.files)
  }

  /** `img_preview`: the stored name of the object's image file with the
      smallest id; None when it has no image file. */
  function ImgPreview(db: Db, o: Obj): (r: Option<string>)
    ensures r.None? <==> forall f :: f in db.files && f.id in o.files ==> !IsImageName(f.name)
    ensures r.Some? ==> exists f :: (f in db.files && f.id in o.files && IsImageName(f.name) && f.name == r.value
      && (forall g :: g in db.files && g.id in o.files && IsImageName(g.name) ==> f.id <= g.id))
  {
    var images := Where(ObjectFiles(db, o), (f: AttachedFile) => IsImageName(f.name));
    var first := FirstBy(images, (f: AttachedFile) => f.id);
    if first.Some? then Some(first.value.name)
    else
      assert forall f :: f in db.files && f.id in o.files ==> f !in images;
      None
  }

  /** The objects whose parent is o (`children`). */
  function Children(db: Db, o: Obj): seq<Obj> {
    Where(db.objects, (c: Obj) => c.parent == Some(o.id))
  }

  /** The tasks the user may see that are linked to the object and not
      done: what the `tasks_count` subquery and `add_tasks_count_to_objects`
      count. */
  function OpenTasks(db: Db, u: User, o: Obj): seq<Task> {
    Select(db, TasksPrepare.PermissionFilter(db, u), And(LinkedTo(o), Done(false)))
  }

  /** The open tasks are distinct, and are exactly the tasks of the table
      that the user may see, that are linked to the object and not done. */
  lemma OpenTasksMeaning(db: Db, u: User, o: Obj)
    requires Valid(db)
    ensures NoDup(OpenTasks(db, u, o))
    ensures forall t :: t in OpenTasks(db, u, o) <==>
      t in db.tasks && TasksPrepare.MaySee(db, u, t) && TaskOnObject(t, o) && !t.isDone
  {
    var all := TasksPrepare.PermissionFilter(db, u);
    TasksPrepare.PermissionFilterDistinct(db, u);
    SelectNoDup(db, all, And(LinkedTo(o), Done(false)));
    forall t ensures t in OpenTasks(db, u, o) <==>
      t in db.tasks && TasksPrepare.MaySee(db, u, t) && TaskOnObject(t, o) && !t.isDone
    {
      OpenTaskMember(db, u, o, t);
      VisibleTask(db, u, t);
    }
  }

  lemma OpenTaskMember(db: Db, u: User, o: Obj, t: Task)
    ensures t in OpenTasks(db, u, o) <==> t in TasksPrepare.PermissionFilter(db, u) && TaskOnObject(t, o) && !t.isDone
  {
    var c := And(LinkedTo(o), Done(false));
    assert Holds(db, t, c) <==> TaskOnObject(t, o) && !t.isDone;
    assert t in Select(db, TasksPrepare.PermissionFilter(db, u), c) <==> t in TasksPrepare.PermissionFilter(db, u) && Holds(db, t, c);
  }

  lemma VisibleTask(db: Db, u: User, t: Task)
    ensures t in TasksPrepare.PermissionFilter(db, u) <==> t in db.tasks && TasksPrepare.MaySee(db, u, t)
  {
    TasksPrepare.PermissionCondMeaning(db, u, t);
  }

  /** One row of the list with its annotations. `tasks_count` is a
      subquery over grouped rows, so it is null when there is no row to
      count. */
  datatype ObjectItem = ObjectItem(
    obj: Obj,
    imgPreview: Option<string>,
    childCount: nat,
    tasksCount: Option<nat>,
    shortDescription: string)

  function Item(db: Db, u: User, o: Obj): (it: ObjectItem)
    ensures it.obj == o
    ensures it.tasksCount.None? <==> |OpenTasks(db, u, o)| == 0
    ensures it.tasksCount.Some? ==> it.tasksCount.value == |OpenTasks(db, u, o)|
  {
    var n := |OpenTasks(db, u, o)|;
    ObjectItem(o, ImgPreview(db, o), |Children(db, o)|, if n == 0 then None else Some(n),
      ShortDescription(o.description))
  }

  // ------------------------------------------------------------ the list

  predicate Visible(db: Db, u: User, o: Obj) {
    ObjectInUserGroup(db, o, u.id)
  }

  function VisibleObjects(db: Db, u: User): (r: seq<Obj>)
    ensures forall o :: o in r <==> o in db.objects && Visible(db, u, o)
  {
    Where(db.objects, (o: Obj) => Visible(db, u, o))
  }

  function Items(db: Db, u: User, os: seq<Obj>): (r: seq<ObjectItem>)
    ensures |r| == |os|
    ensures forall i :: 0 <= i < |os| ==> r[i] == Item(db, u, os[i])
  {
    seq(|os|, i requires 0 <= i < |os| => Item(db, u, os[i]))
  }

  /** `order_by("parent_id", "-id")`, objects without a parent first when
      nullsFirst holds and last otherwise. */
  function ListKey(nullsFirst: bool): ObjectItem -> Key {
    (it: ObjectItem) =>
      (if it.obj.parent.None? == nullsFirst then 0 else 1,
       if it.obj.parent.Some? then it.obj.parent.value else 0,
       -(it.obj.id as int))
  }

  /** `get_objects_list`: the objects of the user's groups, each once,
      annotated and ordered. */
  function ObjectsList(db: Db, u: User, nullsFirst: bool): seq<ObjectItem> {
    SortBy(Items(db, u, VisibleObjects(db, u)), ListKey(nullsFirst))
  }

  /** Two rows of the object table with one id are one row. */
  lemma SameIdSameObject(db: Db, a: Obj, b: Obj)
    requires Valid(db) && a in db.objects && b in db.objects
    ensures a.id == b.id ==> a == b
  {
    var i :| 0 <= i < |db.objects| && db.objects[i] == a;
    var j :| 0 <= j < |db.objects| && db.objects[j] == b;
    assert a.id == b.id ==> i == j;
  }

  /** The list holds, for every object of the user's groups and for no
      other object, its annotated row; no object is listed twice; and the
      rows are in the requested order. */
  lemma ObjectsListShape(db: Db, u: User, nullsFirst: bool)
    requires Valid(db)
    ensures var r := ObjectsList(db, u, nullsFirst);
      && (forall it :: it in r ==> it.obj in db.objects && Visible(db, u, it.obj) && it == Item(db, u, it.obj))
      && (forall o :: o in db.objects && Visible(db, u, o) ==> Item(db, u, o) in r)
      && (forall i, j :: 0 <= i < j < |r| ==> r[i].obj.id != r[j].obj.id)
      && SortedBy(r, ListKey(nullsFirst))
  {
    var vs := VisibleObjects(db, u);
    ObjectsTableNoDup(db);
    WhereNoDup(db.objects, (o: Obj) => Visible(db, u, o));
    ItemsShape(db, u, vs);
    SortedRows(db, u, vs, Items(db, u, vs), ListKey(nullsFirst));
  }

  /** Sorting the rows of the distinct visible objects keeps one row per
      visible object, and keeps their objects' ids distinct. */
  lemma SortedRows(db: Db, u: User, vs: seq<Obj>, s: seq<ObjectItem>, key: ObjectItem -> Key)
    requires Valid(db)
    requires forall o :: o in vs <==> o in db.objects && Visible(db, u, o)
    requires NoDup(s)
    requires forall it :: it in s ==> it.obj in vs && it == Item(db, u, it.obj)
    requires forall o :: o in vs ==> Item(db, u, o) in s
    ensures var r := SortBy(s, key);
      && (forall it :: it in r ==> it.obj in db.objects && Visible(db, u, it.obj) && it == Item(db, u, it.obj))
      && (forall o :: o in db.objects && Visible(db, u, o) ==> Item(db, u, o) in r)
      && (forall i, j :: 0 <= i < j < |r| ==> r[i].obj.id != r[j].obj.id)
      && SortedBy(r, key)
  {
    var r := SortBy(s, key);
    SortNoDup(s, key);
    forall it | it in r ensures it.obj in db.objects && Visible(db, u, it.obj) && it == Item(db, u, it.obj) {
      SortKeepsMembers(s, key, it);
    }
    forall o | o in db.objects && Visible(db, u, o) ensures Item(db, u, o) in r {
      SortKeepsMembers(s, key, Item(db, u, o));
    }
    forall i, j | 0 <= i < j < |r| ensures r[i].obj.id != r[j].obj.id {
      SortKeepsMembers(s, key, r[i]);
      SortKeepsMembers(s, key, r[j]);
      SameIdSameObject(db, r[i].obj, r[j].obj);
    }
  }

  /** The rows of distinct objects are distinct, and there is one for each
      object. */
  lemma ItemsShape(db: Db, u: User, vs: seq<Obj>)
    requires NoDup(vs)
    ensures var s := Items(db, u, vs);
      && NoDup(s)
      && (forall it :: it in s ==> it.obj in vs && it == Item(db, u, it.obj))
      && (forall o :: o in vs ==> Item(db, u, o) in s)
  {
    var s := Items(db, u, vs);
    forall i, j | 0 <= i < j < |s| ensures s[i] != s[j] {
      assert s[i].obj == vs[i] && s[j].obj == vs[j];
    }
    forall o | o in vs ensures Item(db, u, o) in s {
      var k :| 0 <= k < |vs| && vs[k] == o;
      assert s[k] == Item(db, u, o);
    }
  }

  lemma ObjectsTableNoDup(db: Db)
    requires Valid(db)
    ensures NoDup(db.objects)
  {
    forall i, j | 0 <= i < j < |db.objects| ensures db.objects[i] != db.objects[j] {
      assert db.objects[i].id != db.objects[j].id;
    }
  }

  // ----------------------------------------------------- the cached page

  /** The dict `get_objects` returns and caches. */
  datatype ObjectsPage = ObjectsPage(objectsQs: Service.Page<ObjectItem>, paginationData: Service.Pagination<ObjectItem>)

  /** `f'objects_page:{page_number}:{request.user}'`. */
  function ObjectsPageKey(pageNumber: string, u: User): string {
    "objects_page:" + pageNumber + ":" + u.username
  }

  const ObjectsVersionKey: string := "objects_page_cache_version"

  /** The object filter applied to the list. */
  function FilteredObjects(db: Db, u: User, get: Query, nullsFirst: bool): seq<ObjectItem> {
    ObjectFilters.FilterObjects(db, get, ObjectsList(db, u, nullsFirst), (it: ObjectItem) => it.obj)
  }

  /** What `get_objects` computes when it does not answer from the cache. */
  function BuildObjectsPage(db: Db, u: User, get: Query, pageNumber: string, perPage: nat, nullsFirst: bool)
    : (p: ObjectsPage)
    requires perPage >= 1
    ensures p.objectsQs == p.paginationData.page
  {
    var pagination := Service.PaginateQueryset(FilteredObjects(db, u, get, nullsFirst), pageNumber, perPage);
    ObjectsPage(pagination.page, pagination)
  }

  /** The filtered list keeps the list's order and only rows that pass the
      filter, so every row shown belongs to an object of the user's groups
      and no object is shown twice. */
  lemma FilteredObjectsShape(db: Db, u: User, get: Query, nullsFirst: bool)
    requires Valid(db)
    ensures var r := FilteredObjects(db, u, get, nullsFirst);
      && (forall it :: it in r ==> it.obj in db.objects && Visible(db, u, it.obj) && ObjectFilters.Passes(db, get, it.obj))
      && (forall o :: o in db.objects && Visible(db, u, o) && ObjectFilters.Passes(db, get, o) ==> Item(db, u, o) in r)
      && NoDup(r)
      && SortedBy(r, ListKey(nullsFirst))
  {
    var all := ObjectsList(db, u, nullsFirst);
    ObjectsListShape(db, u, nullsFirst);
    assert NoDup(all) by {
      forall i, j | 0 <= i < j < |all| ensures all[i] != all[j] {
        assert all[i].obj.id != all[j].obj.id;
      }
    }
    ObjectFilters.FilterObjectsKeepsOrder(db, get, all, (it: ObjectItem) => it.obj, ListKey(nullsFirst));
  }

  /** Every row of a built page is a listed, filtered row. */
  lemma PageRowsVisible(db: Db, u: User, get: Query, pageNumber: string, perPage: nat, nullsFirst: bool)
    requires Valid(db) && perPage >= 1
    ensures forall it :: it in BuildObjectsPage(db, u, get, pageNumber, perPage, nullsFirst).objectsQs.items ==>
      it.obj in db.objects && Visible(db, u, it.obj) && ObjectFilters.Passes(db, get, it.obj)
  {
    var items := FilteredObjects(db, u, get, nullsFirst);
    FilteredObjectsShape(db, u, get, nullsFirst);
    var page := BuildObjectsPage(db, u, get, pageNumber, perPage, nullsFirst).objectsQs;
    forall it | it in page.items ensures it in items {
      var j :| 0 <= j < |page.items| && page.items[j] == it;
    }
  }

  /** `get_objects`: the namespace's version is read first; with no filter
      parameters a page stored under the page's key at that version is
      returned as it is (a page dict is never empty, so never falsy);
      otherwise the page is built, and stored at that version when there
      are no filter parameters. */
  method GetObjects(db: Db, u: User, get: Query, filterParams: bool, pageNumber: string, perPage: nat,
                    nullsFirst: bool, counters: Counters, cache: Cache<ObjectsPage>) returns (r: ObjectsPage)
    requires perPage >= 1
    modifies counters, cache
    ensures counters.values == AfterRead(old(counters.values), ObjectsVersionKey)
    ensures var a := Address(ObjectsPageKey(pageNumber, u), ReadVersion(old(counters.values), ObjectsVersionKey));
      && (!filterParams && a in old(cache.entries) ==> r == old(cache.entries)[a] && cache.entries == old(cache.entries))
      && (filterParams ==> r == BuildObjectsPage(db, u, get, pageNumber, perPage, nullsFirst) && cache.entries == old(cache.entries))
      && (!filterParams && a !in old(cache.entries) ==>
            && r == BuildObjectsPage(db, u, get, pageNumber, perPage, nullsFirst)
            && cache.entries == old(cache.entries)[a := r])
  {
    var cacheKey := ObjectsPageKey(pageNumber, u);
    var cacheVersion := new CacheVersion(ObjectsVersionKey);
    var cacheVersionValue := cacheVersion.GetCacheVersion(counters);
    if !filterParams {
      var cachedData := cache.Get(cacheKey, cacheVersionValue);
      if cachedData.Some? {
        return cachedData.value;
      }
    }
    var filteredObjects := FilteredObjects(db, u, get, nullsFirst);
    var paginationData := Service.PaginateQueryset(filteredObjects, pageNumber, perPage);
    r := ObjectsPage(paginationData.page, paginationData);
    if !filterParams {
      cache.Set(cacheKey, cacheVersionValue, r);
    }
  }

  /** Every stored page is at a version no newer than the namespace's
      current version. */
  predicate PagesCoherent(m: map<string, int>, entries: map<Address, ObjectsPage>) {
    forall a :: a in entries && StartsWith(a.key, "objects_page:") ==> a.version <= ReadVersion(m, ObjectsVersionKey)
  }

  /** A read-through of `get_objects` keeps the stored pages coherent. */
  lemma GetObjectsKeepsCoherent(m: map<string, int>, entries: map<Address, ObjectsPage>,
                                pageNumber: string, u: User, p: ObjectsPage)
    requires PagesCoherent(m, entries)
    ensures PagesCoherent(AfterRead(m, ObjectsVersionKey),
      entries[Address(ObjectsPageKey(pageNumber, u), ReadVersion(m, ObjectsVersionKey)) := p])
  {
    assert ReadVersion(AfterRead(m, ObjectsVersionKey), ObjectsVersionKey) == ReadVersion(m, ObjectsVersionKey);
  }

  /** After an object is saved or deleted, its receivers have raised the
      namespace, and no user's stored page is read again. */
  lemma ObjectSignalHidesPages(m: map<string, int>, entries: map<Address, ObjectsPage>, pageNumber: string, u: User)
    requires PagesCoherent(m, entries)
    ensures Address(ObjectsPageKey(pageNumber, u),
        ReadVersion(Models.BumpAll(m, Models.Namespaces(Models.ObjectSender)), ObjectsVersionKey)) !in entries
  {
    Models.SignalBumpsByOne(Models.ObjectSender, m, ObjectsVersionKey);
    var key := ObjectsPageKey(pageNumber, u);
    assert StartsWith(key, "objects_page:") by {
      assert key[..|"objects_page:"|] == "objects_page:";
    }
  }

  /** A saved or deleted task leaves the namespace as it is: a stored page
      keeps its task counts until an object changes. */
  lemma TaskSignalKeepsPages(m: map<string, int>)
    ensures ReadVersion(Models.BumpAll(m, Models.Namespaces(Models.TaskSender)), ObjectsVersionKey)
      == ReadVersion(m, ObjectsVersionKey)
  {
    Models.SignalBumpsByOne(Models.TaskSender, m, ObjectsVersionKey);
    assert ObjectsVersionKey[0] != "tasks_page_version_cache"[0];
  }

  // ---------------------------------------------------------- one object

  datatype NotFound = Http404

  /** The object as `get_obj` annotates it. */
  datatype ObjectView = ObjectView(
    obj: Obj,
    parentName: Option<string>,
    parentSlug: Option<string>,
    doneTasksCount: nat,
    undoneTasksCount: nat)

  /** The dict `get_obj` returns. */
  datatype ObjectDetail = ObjectDetail(
    view: ObjectView,
    objImages: seq<AttachedFile>,
    objFiles: seq<AttachedFile>,
    objectIdList: seq<Id>)

  /** The tasks linked to the object that are done (or not). */
  function LinkedTasks(db: Db, o: Obj, done: bool): seq<Task> {
    Where(db.tasks, (t: Task) => TaskOnObject(t, o) && t.isDone == done)
  }

  function View(db: Db, o: Obj): ObjectView {
    var parent := if o.parent.Some? then FindObject(db, o.parent.value) else None;
    ObjectView(o,
      if parent.Some? then Some(parent.value.name) else None,
      if parent.Some? then Some(parent.value.slug) else None,
      |LinkedTasks(db, o, true)|, |LinkedTasks(db, o, false)|)
  }

  /** `get_obj`: the visible object with the slug (the one with the
      smallest id, as `.first()` orders by key), its parent's name and
      slug, its task counts, and its files split into images and the rest;
      Http404 when the user sees no object with that slug. */
  function GetObj(db: Db, slug: string, u: User): (r: Result<ObjectDetail, NotFound>)
    ensures r.Err? <==> forall o :: o in db.objects && o.slug == slug ==> !Visible(db, u, o)
    ensures r.Ok? ==> var o := r.value.view.obj;
      && o in db.objects && o.slug == slug && Visible(db, u, o)
      && (forall o' :: o' in db.objects && o'.slug == slug && Visible(db, u, o') ==> o.id <= o'.id)
      && r.value.objectIdList == [o.id]
  {
    var found := Where(db.objects, (o: Obj) => o.slug == slug && Visible(db, u, o));
    var first := FirstBy(found, (o: Obj) => o.id);
    if first.None? then
      assert forall o :: o in db.objects && o.slug == slug ==> o !in found;
      Err(Http404)
    else
      var o := first.value;
      var files := ObjectFiles(db, o);
      Ok(ObjectDetail(View(db, o), Where(files, (f: AttachedFile) => f.isImage),
        Where(files, (f: AttachedFile) => !f.isImage), [o.id]))
  }

  /** The object's files are split into images and other files by
      `is_image`, losing none and repeating none; the two task counts add up
      to the tasks linked to it; the parent's name and slug are there
      exactly when it has a parent row. */
  lemma GetObjParts(db: Db, slug: string, u: User)
    requires GetObj(db, slug, u).Ok?
    ensures var d := GetObj(db, slug, u).value; var o := d.view.obj;
      && (forall f :: f in d.objImages <==> f in db.files && f.id in o.files && f.isImage)
      && (forall f :: f in d.objFiles <==> f in db.files && f.id in o.files && !f.isImage)
      && |d.objImages| + |d.objFiles| == |ObjectFiles(db, o)|
      && d.view.doneTasksCount + d.view.undoneTasksCount == |Where(db.tasks, (t: Task) => TaskOnObject(t, o))|
      && (d.view.parentName.Some? <==> o.parent.Some? && FindObject(db, o.parent.value).Some?)
  {
    var d := GetObj(db, slug, u).value;
    var o := d.view.obj;
    var files := ObjectFiles(db, o);
    WherePartition(files, (f: AttachedFile) => f.isImage, (f: AttachedFile) => !f.isImage);
    var linked := Where(db.tasks, (t: Task) => TaskOnObject(t, o));
    WherePartition(linked, (t: Task) => t.isDone, (t: Task) => !t.isDone);
    WhereWhere(db.tasks, (t: Task) => TaskOnObject(t, o), (t: Task) => t.isDone,
      (t: Task) => TaskOnObject(t, o) && t.isDone == true);
    WhereWhere(db.tasks, (t: Task) => TaskOnObject(t, o), (t: Task) => !t.isDone,
      (t: Task) => TaskOnObject(t, o) && t.isDone == false);
  }

  // ------------------------------------------- cached single object reads

  /** `f'single_obj_{object_slug}'`, stored without a version. */
  function SingleObjectKey(slug: string): string {
    "single_obj_" + slug
  }

  /** `get_single_object` on a cache state: the answer and the next state.
      A stored detail is a non-empty dict, so any stored entry is a hit. */
  function SingleObjectRead(db: Db, u: User, slug: string, entries: map<Address, ObjectDetail>)
    : (r: (Result<ObjectDetail, NotFound>, map<Address, ObjectDetail>))
    ensures var a := Address(SingleObjectKey(slug), DefaultVersion);
      && (a in entries ==> r.0 == Ok(entries[a]) && r.1 == entries)
      && (a !in entries && r.0.Ok? ==> r.0 == GetObj(db, slug, u) && r.1 == entries[a := r.0.value])
      && (a !in entries && r.0.Err? ==> r.0 == GetObj(db, slug, u) && r.1 == entries)
  {
    var a := Address(SingleObjectKey(slug), DefaultVersion);
    if a in entries then (Ok(entries[a]), entries)
    else
      var obj := GetObj(db, slug, u);
      if obj.Ok? then (obj, entries[a := obj.value]) else (obj, entries)
  }

  /** `get_single_object`: a stored detail is returned as it is; otherwise
      `get_obj` runs (raising Http404 stores nothing) and its detail is
      stored. */
  method GetSingleObject(db: Db, u: User, slug: string, cache: Cache<ObjectDetail>)
    returns (r: Result<ObjectDetail, NotFound>)
    modifies cache
    ensures (r, cache.entries) == SingleObjectRead(db, u, slug, old(cache.entries))
  {
    var cacheKey := SingleObjectKey(slug);
    var cachedData := cache.Get(cacheKey, DefaultVersion);
    if cachedData.Some? {
      return Ok(cachedData.value);
    }
    r := GetObj(db, slug, u);
    if r.Ok? {
      cache.Set(cacheKey, DefaultVersion, r.value);
    }
  }

  /** The key names the slug and not the user: once a member of the
      object's group has opened the page, a user outside every group of the
      object receives the same detail, where `get_obj` alone answers 404. */
  lemma SingleObjectServedToOutsider()
    ensures var g := Group(1, "g", [1]);
      var o := Obj(1, "o", "s", None, "LOW", "", [], [], [1], []);
      var db := Db([], [], [], [g], [], [], [], [o]);
      var member := User(1, "member", false, false);
      var outsider := User(2, "outsider", false, false);
      var after := SingleObjectRead(db, member, "s", map[]).1;
      && GetObj(db, "s", outsider).Err?
      && SingleObjectRead(db, outsider, "s", after).0.Ok?
  {
    var g := Group(1, "g", [1]);
    var o := Obj(1, "o", "s", None, "LOW", "", [], [], [1], []);
    var db := Db([], [], [], [g], [], [], [], [o]);
    var member := User(1, "member", false, false);
    var outsider := User(2, "outsider", false, false);
    assert Visible(db, member, o) by {
      assert g in db.groups && g.id in o.groups && member.id in g.users;
    }
    assert GetObj(db, "s", member).Ok?;
    assert !Visible(db, outsider, o);
    assert forall o' :: o' in db.objects ==> o' == o;
  }

  /** The read with the access check the other pages make: a stored detail
      is returned only to a user who sees an object with the slug, and
      otherwise the answer is `get_obj`'s. */
  function SingleObjectReadChecked(db: Db, u: User, slug: string, entries: map<Address, ObjectDetail>)
    : (r: (Result<ObjectDetail, NotFound>, map<Address, ObjectDetail>))
    ensures r.0.Ok? <==> GetObj(db, slug, u).Ok?
    ensures r.0.Ok? ==> r.1 == entries[Address(SingleObjectKey(slug), DefaultVersion) := r.0.value]
    ensures r.0.Err? ==> r.1 == entries
    ensures Address(SingleObjectKey(slug), DefaultVersion) !in entries ==> r.0 == GetObj(db, slug, u)
  {
    if GetObj(db, slug, u).Err? then (Err(Http404), entries)
    else SingleObjectRead(db, u, slug, entries)
  }

  /** With the check, the cached read answers 404 exactly where the
      uncached one does, whatever the cache holds. */
  lemma CheckedReadKeepsAccess(db: Db, u: User, slug: string, entries: map<Address, ObjectDetail>)
    ensures SingleObjectReadChecked(db, u, slug, entries).0.Err? <==> GetObj(db, slug, u).Err?
    ensures GetObj(db, slug, u).Ok? ==>
      SingleObjectReadChecked(db, u, slug, entries) == SingleObjectRead(db, u, slug, entries)
  {
  }

  // --------------------------------------------------- cached child lists

  /** `f'obj_{parent.slug}_childs'`, stored without a version. */
  function ChildObjectsKey(parent: Obj): string {
    "obj_" + parent.slug + "_childs"
  }

  /** `get_objects_list(user).filter(parent=parent)`. */
  function ChildObjects(db: Db, u: User, parent: Obj, nullsFirst: bool): seq<ObjectItem> {
    Where(ObjectsList(db, u, nullsFirst), (it: ObjectItem) => it.obj.parent == Some(parent.id))
  }

  /** The child list holds the annotated rows of exactly the visible
      objects whose parent is the given object, in the list's order. */
  lemma ChildObjectsShape(db: Db, u: User, parent: Obj, nullsFirst: bool)
    requires Valid(db)
    ensures var r := ChildObjects(db, u, parent, nullsFirst);
      && (forall it :: it in r ==>
            it.obj in db.objects && Visible(db, u, it.obj) && it.obj.parent == Some(parent.id) && it == Item(db, u, it.obj))
      && (forall o :: o in db.objects && Visible(db, u, o) && o.parent == Some(parent.id) ==> Item(db, u, o) in r)
      && SortedBy(r, ListKey(nullsFirst))
  {
    ObjectsListShape(db, u, nullsFirst);
    WhereSorted(ObjectsList(db, u, nullsFirst), (it: ObjectItem) => it.obj.parent == Some(parent.id), ListKey(nullsFirst));
  }

  /** `get_child_objects`: any stored value that is not None is a hit, the
      empty list included; otherwise the list is computed and stored. */
  method GetChildObjects(db: Db, u: User, parent: Obj, nullsFirst: bool, cache: Cache<seq<ObjectItem>>)
    returns (r: seq<ObjectItem>)
    modifies cache
    ensures var a := Address(ChildObjectsKey(parent), DefaultVersion);
      && (a in old(cache.entries) ==> r == old(cache.entries)[a] && cache.entries == old(cache.entries))
      && (a !in old(cache.entries) ==> r == ChildObjects(db, u, parent, nullsFirst) && cache.entries == old(cache.entries)[a := r])
  {
    var cacheKey := ChildObjectsKey(parent);
    var cachedData := cache.Get(cacheKey, DefaultVersion);
    if cachedData.Some? {
      return cachedData.value;
    }
    r := ChildObjects(db, u, parent, nullsFirst);
    cache.Set(cacheKey, DefaultVersion, r);
  }

  // ---------------------------------------------------------------- edit

  /** The cache part of `edit_object`: a valid form drops the object's
      stored detail and its stored child list; an invalid one leaves the
      cache alone. */
  method EditObjectCache(slug: string, formValid: bool, single: Cache<ObjectDetail>, childs: Cache<seq<ObjectItem>>)
    modifies single, childs
    ensures formValid ==> single.entries == old(single.entries) - {Address(SingleObjectKey(slug), DefaultVersion)}
    ensures formValid ==> childs.entries == old(childs.entries) - {Address("obj_" + slug + "_childs", DefaultVersion)}
    ensures !formValid ==> single.entries == old(single.entries) && childs.entries == old(childs.entries)
  {
    if formValid {
      single.Delete(SingleObjectKey(slug), DefaultVersion);
      childs.Delete("obj_" + slug + "_childs", DefaultVersion);
    }
  }

  /** After an edit the next reads of the object's detail and of its child
      list are computed from the database again. */
  lemma EditRefreshesReads(db: Db, u: User, o: Obj, nullsFirst: bool,
                           single: map<Address, ObjectDetail>, childs: map<Address, seq<ObjectItem>>)
    ensures SingleObjectRead(db, u, o.slug, single - {Address(SingleObjectKey(o.slug), DefaultVersion)}).0
      == GetObj(db, o.slug, u)
    ensures Address(ChildObjectsKey(o), DefaultVersion) !in childs - {Address("obj_" + o.slug + "_childs", DefaultVersion)}
  {
  }

  // ------------------------------------------------- many_objects.py

  /** A row of a queryset as a Python object whose attributes can be set. */
  class ObjectRow {
    const obj: Obj
    var attrs: map<string, int>

    constructor(obj: Obj)
      ensures this.obj == obj && attrs == map[]
    {
      this.obj := obj;
      attrs := map[];
    }
  }

  /** `add_tasks_count_to_objects`: sets the attribute on every row to the
      number of the user's open tasks linked to its object, changes no
      other attribute, and returns the rows it was given. */
  method AddTasksCountToObjects(db: Db, rows: seq<ObjectRow>, u: User, fieldName: string)
    returns (r: seq<ObjectRow>)
    modifies set x | x in rows
    ensures r == rows
    ensures forall x :: x in rows ==> x.attrs == old(x.attrs)[fieldName := |OpenTasks(db, u, x.obj)|]
  {
    r := SetCounts(rows, fieldName, (o: Obj) => |OpenTasks(db, u, o)|);
  }

  /** The loop of `add_tasks_count_to_objects`, for a given count per
      object. A row met twice gets the same value twice. */
  method SetCounts(rows: seq<ObjectRow>, fieldName: string, count: Obj -> nat)
    returns (r: seq<ObjectRow>)
    modifies set x | x in rows
    ensures r == rows
    ensures forall x :: x in rows ==> x.attrs == old(x.attrs)[fieldName := count(x.obj)]
  {
    for i := 0 to |rows|
      invariant forall x :: x in rows[..i] ==> x.attrs == old(x.attrs)[fieldName := count(x.obj)]
      invariant forall x :: x in rows && x !in rows[..i] ==> x.attrs == old(x.attrs)
    {
      var obj := rows[i];
      obj.attrs := obj.attrs[fieldName := count(obj.obj)];
      assert rows[..i + 1] == rows[..i] + [obj];
    }
    assert rows[..|rows|] == rows;
    r := rows;
  }

  /** The count set on a row (and shown by the `tasks_count` annotation)
      is the number of distinct tasks the user may see that are linked to
      the object and not done. */
  lemma OpenTasksCount(db: Db, u: User, o: Obj)
    requires Valid(db)
    ensures |OpenTasks(db, u, o)|
      == |set t | t in db.tasks && TasksPrepare.MaySee(db, u, t) && TaskOnObject(t, o) && !t.isDone|
  {
    OpenTasksMeaning(db, u, o);
    var s := OpenTasks(db, u, o);
    assert (set t | t in s) == (set t | t in db.tasks && TasksPrepare.MaySee(db, u, t) && TaskOnObject(t, o) && !t.isDone);
    NoDupCard(s);
  }
}
