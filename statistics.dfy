/** tasks/services/statistics.py, `get_stat`: per engineer and per
    department, how many live (not deleted) tasks list them and are still
    open ("active") or done ("completed"). The function walks the live
    tasks in their default order (by creation time), and for each task its
    engineers and then its departments; an engineer or department gets its
    entry, at zero, the first time it is met, and the task's state adds one
    to it. The two dicts keep the order their entries were made in, which is
    the order of the two lists returned. The result is cached under "stat".

    Each dict is kept here as a `Tally`: the keys in the order they were
    first met and their counts. A dict of the source is keyed by the row's
    id and holds the row's names; primary keys being unique, keying by the
    row itself is the same, and the names are read off the row when the
    lists are built. */
module Statistics {
  import opened Wrappers
  import opened Seqs
  import opened Sorting
  import opened Domain
  import opened TaskQuery
  import opened CacheStore

  const NoDepartment: string := "Нет департамента"
  const StatKey: string := "stat"

  datatype Counts = Counts(active: nat, completed: nat)

  /** An insertion-ordered dict from keys to their counts. */
  datatype Tally<K> = Tally(keys: seq<K>, counts: map<K, Counts>)

  datatype EngineerStat = EngineerStat(
    firstName: string,
    secondName: string,
    department: string,
    active: nat,
    completed: nat)

  datatype DepartmentStat = DepartmentStat(name: string, active: nat, completed: nat)

  /** The dict `get_stat` returns and caches. */
  datatype Stat = Stat(engineerStats: seq<EngineerStat>, departmentStats: seq<DepartmentStat>)

  /** The counts of k, zero when it has no entry yet. */
  function Get<K(!new)>(t: Tally<K>, k: K): Counts {
    if k in t.counts then t.counts[k] else Counts(0, 0)
  }

  /** n more tasks, open or done. */
  function Add(c: Counts, n: nat, done: bool): Counts {
    if done then Counts(c.active, c.completed + n) else Counts(c.active + n, c.completed)
  }

  /** The keys are the dict's entries, each once. */
  ghost predicate WellFormed<K(!new)>(t: Tally<K>) {
    NoDup(t.keys) && forall k :: k in t.counts <==> k in t.keys
  }

  /** Meeting k on a task: the entry is made at zero if missing, then the
      task's state counts once. */
  function Bump<K(!new)>(t: Tally<K>, k: K, done: bool): Tally<K> {
    var made := if k in t.counts then t else Tally(t.keys + [k], t.counts[k := Counts(0, 0)]);
    Tally(made.keys, made.counts[k := Add(made.counts[k], 1, done)])
  }

  /** Meeting every key of ks, in order, on one task. */
  function BumpAll<K(!new)>(t: Tally<K>, ks: seq<K>, done: bool): Tally<K>
    decreases |ks|
  {
    if |ks| == 0 then t else Bump(BumpAll(t, ks[..|ks| - 1], done), ks[|ks| - 1], done)
  }

  /** The tally after the tasks ts, each contributing the keys of(t). */
  function TallyTasks<K(!new)>(ts: seq<Task>, of: Task -> seq<K>): Tally<K>
    decreases |ts|
  {
    if |ts| == 0 then Tally([], map[])
    else
      var t := ts[|ts| - 1];
      BumpAll(TallyTasks(ts[..|ts| - 1], of), of(t), t.isDone)
  }

  /** Reference definitions: every key met, in order, and how many times k
      is met on the tasks in the given state. */
  function AllKeys<K(!new)>(ts: seq<Task>, of: Task -> seq<K>): seq<K>
    decreases |ts|
  {
    if |ts| == 0 then [] else AllKeys(ts[..|ts| - 1], of) + of(ts[|ts| - 1])
  }

  function CountIn<K(==,!new)>(ts: seq<Task>, of: Task -> seq<K>, k: K, done: bool): nat
    decreases |ts|
  {
    if |ts| == 0 then 0
    else
      var t := ts[|ts| - 1];
      CountIn(ts[..|ts| - 1], of, k, done) + (if t.isDone == done then Occurrences(of(t), k) else 0)
  }

  lemma {:induction false} OccurrencesSnoc<T(!new)>(s: seq<T>, x: T, y: T)
    ensures Occurrences(s + [x], y) == Occurrences(s, y) + (if x == y then 1 else 0)
    decreases |s|
  {
    if |s| > 0 {
      assert (s + [x])[1..] == s[1..] + [x];
      OccurrencesSnoc(s[1..], x, y);
    }
  }

  /** Meeting one key: it is appended to the order the first time, and
      its count in the task's state grows by one. */
  lemma BumpMeaning<K(!new)>(p: Tally<K>, x: K, done: bool, seen: seq<K>)
    requires WellFormed(p) && p.keys == Dedup(seen)
    ensures var r := Bump(p, x, done);
      WellFormed(r) && r.keys == Dedup(seen + [x])
      && forall k :: Get(r, k) == Add(Get(p, k), if x == k then 1 else 0, done)
  {
    assert (seen + [x])[..|seen + [x]| - 1] == seen;
    if x !in p.keys {
      NoDupAppend(p.keys, [x]);
    }
  }

  /** One task's keys: the order of first sight is extended by the new
      ones, and each key's count grows by its occurrences. */
  lemma {:induction false} BumpAllMeaning<K(!new)>(t: Tally<K>, ks: seq<K>, done: bool, seen: seq<K>)
    requires WellFormed(t) && t.keys == Dedup(seen)
    ensures var r := BumpAll(t, ks, done);
      WellFormed(r) && r.keys == Dedup(seen + ks)
      && forall k :: Get(r, k) == Add(Get(t, k), Occurrences(ks, k), done)
    decreases |ks|
  {
    if |ks| == 0 {
      assert seen + ks == seen;
    } else {
      var init := ks[..|ks| - 1];
      BumpAllMeaning(t, init, done, seen);
      assert ks == init + [ks[|ks| - 1]];
      BumpAllStep(t, BumpAll(t, init, done), init, ks[|ks| - 1], done, seen);
    }
  }

  lemma BumpAllStep<K(!new)>(t: Tally<K>, p: Tally<K>, init: seq<K>, x: K, done: bool, seen: seq<K>)
    requires WellFormed(p) && p.keys == Dedup(seen + init)
    requires forall k :: Get(p, k) == Add(Get(t, k), Occurrences(init, k), done)
    ensures var r := Bump(p, x, done);
      WellFormed(r) && r.keys == Dedup(seen + (init + [x]))
      && forall k :: Get(r, k) == Add(Get(t, k), Occurrences(init + [x], k), done)
  {
    assert seen + (init + [x]) == (seen + init) + [x];
    BumpMeaning(p, x, done, seen + init);
    forall k ensures Get(Bump(p, x, done), k) == Add(Get(t, k), Occurrences(init + [x], k), done) {
      OccurrencesSnoc(init, x, k);
    }
  }

  /** The tally of a run of tasks is the first-sight order of all the keys
      met and, per key, its occurrences on open and on done tasks. */
  lemma {:induction false} TallyTasksMeaning<K(!new)>(ts: seq<Task>, of: Task -> seq<K>)
    ensures var r := TallyTasks(ts, of);
      WellFormed(r) && r.keys == Dedup(AllKeys(ts, of))
      && forall k :: Get(r, k) == Counts(CountIn(ts, of, k, false), CountIn(ts, of, k, true))
    decreases |ts|
  {
    if |ts| > 0 {
      var init := ts[..|ts| - 1];
      var t := ts[|ts| - 1];
      TallyTasksMeaning(init, of);
      BumpAllMeaning(TallyTasks(init, of), of(t), t.isDone, AllKeys(init, of));
    }
  }

  lemma {:induction false} AllKeysMembers<K(!new)>(ts: seq<Task>, of: Task -> seq<K>)
    ensures forall k :: k in AllKeys(ts, of) <==> exists t :: t in ts && k in of(t)
    decreases |ts|
  {
    if |ts| > 0 {
      var init := ts[..|ts| - 1];
      AllKeysMembers(init, of);
      assert ts == init + [ts[|ts| - 1]];
    }
  }

  /** When a key occurs on exactly the tasks `listed` picks, once each, its
      count in a state is the number of those tasks in that state. */
  lemma {:induction false} CountInWhere<K(!new)>(
    ts: seq<Task>, of: Task -> seq<K>, k: K, done: bool, listed: Task -> bool, p: Task -> bool)
    requires forall t :: t in ts ==> Occurrences(of(t), k) == if listed(t) then 1 else 0
    requires forall t :: p(t) == (listed(t) && t.isDone == done)
    ensures CountIn(ts, of, k, done) == |Where(ts, p)|
    decreases |ts|
  {
    if |ts| > 0 {
      var init := ts[..|ts| - 1];
      var t := ts[|ts| - 1];
      assert ts == init + [t];
      CountInWhere(init, of, k, done, listed, p);
      WhereAppend(init, [t], p);
      assert Where([t], p) == if p(t) then [t] else [];
    }
  }

  /** `task.engineers.all()` / `task.departments.all()`: the rows the
      task's ids name. */
  function Resolve<K(!new)>(ids: seq<Id>, find: Id -> Option<K>): (r: seq<K>)
    ensures forall k :: k in r <==> exists id :: id in ids && find(id) == Some(k)
    decreases |ids|
  {
    if |ids| == 0 then []
    else
      var rest := Resolve(ids[1..], find);
      assert forall id :: id in ids <==> id == ids[0] || id in ids[1..] by {
        assert ids == [ids[0]] + ids[1..];
      }
      (if find(ids[0]).Some? then [find(ids[0]).value] else []) + rest
  }

  /** A row named by one id only occurs once for each time that id is
      listed. */
  lemma {:induction false} ResolveOnce<K(!new)>(ids: seq<Id>, find: Id -> Option<K>, k: K, id: Id)
    requires NoDup(ids)
    requires find(id) == Some(k)
    requires forall j :: find(j) == Some(k) ==> j == id
    ensures Occurrences(Resolve(ids, find), k) == if id in ids then 1 else 0
    decreases |ids|
  {
    if |ids| > 0 {
      ResolveOnce(ids[1..], find, k, id);
      var head := if find(ids[0]).Some? then [find(ids[0]).value] else [];
      assert Resolve(ids, find) == head + Resolve(ids[1..], find);
      OccurrencesPrefix(head, Resolve(ids[1..], find), k);
      assert ids == [ids[0]] + ids[1..];
      assert ids[0] !in ids[1..];
    }
  }

  lemma {:induction false} OccurrencesPrefix<T(!new)>(a: seq<T>, b: seq<T>, x: T)
    requires |a| <= 1
    ensures Occurrences(a + b, x) == Occurrences(a, x) + Occurrences(b, x)
  {
    if |a| == 1 {
      assert (a + b)[1..] == b;
    } else {
      assert a + b == b;
    }
  }

  function EngineerLookup(db: Db): Id -> Option<Engineer> {
    (id: Id) => FindEngineer(db, id)
  }

  function DepartmentLookup(db: Db): Id -> Option<Department> {
    (id: Id) => FindDepartment(db, id)
  }

  function EngineersOf(db: Db): Task -> seq<Engineer> {
    (t: Task) => Resolve(t.engineers, EngineerLookup(db))
  }

  function DepartmentsOf(db: Db): Task -> seq<Department> {
    (t: Task) => Resolve(t.departments, DepartmentLookup(db))
  }

  /** `Task.objects.filter(deleted=False)`, in the model's default order. */
  function LiveTasks(db: Db): (r: seq<Task>)
    ensures forall t :: t in r <==> t in db.tasks && !t.deleted
    ensures SortedBy(r, CreateKey)
  {
    var s := Select(db, db.tasks, NotDeleted);
    SortKeepsTasks(s, CreateKey);
    SortBy(s, CreateKey)
  }

  /** The engineer's department name, or the placeholder when the engineer
      has none. */
  function DepartmentLabel(db: Db, e: Engineer): (r: string)
    ensures e.department.None? ==> r == NoDepartment
    ensures e.department.Some? && FindDepartment(db, e.department.value).Some? ==>
      r == FindDepartment(db, e.department.value).value.name
  {
    if e.department.Some? && FindDepartment(db, e.department.value).Some?
    then FindDepartment(db, e.department.value).value.name
    else NoDepartment
  }

  function EngineerRows(db: Db, t: Tally<Engineer>): (r: seq<EngineerStat>)
    ensures |r| == |t.keys|
    ensures forall i :: 0 <= i < |t.keys| ==>
      var e := t.keys[i];
      r[i] == EngineerStat(e.firstName, e.secondName, DepartmentLabel(db, e), Get(t, e).active, Get(t, e).completed)
  {
    seq(|t.keys|, i requires 0 <= i < |t.keys| =>
      var e := t.keys[i];
      EngineerStat(e.firstName, e.secondName, DepartmentLabel(db, e), Get(t, e).active, Get(t, e).completed))
  }

  function DepartmentRows(t: Tally<Department>): (r: seq<DepartmentStat>)
    ensures |r| == |t.keys|
    ensures forall i :: 0 <= i < |t.keys| ==>
      r[i] == DepartmentStat(t.keys[i].name, Get(t, t.keys[i]).active, Get(t, t.keys[i]).completed)
  {
    seq(|t.keys|, i requires 0 <= i < |t.keys| =>
      DepartmentStat(t.keys[i].name, Get(t, t.keys[i]).active, Get(t, t.keys[i]).completed))
  }

  function EngineerTally(db: Db): Tally<Engineer> {
    TallyTasks(LiveTasks(db), EngineersOf(db))
  }

  function DepartmentTally(db: Db): Tally<Department> {
    TallyTasks(LiveTasks(db), DepartmentsOf(db))
  }

  /** What `get_stat` computes on a cache miss. */
  function StatOf(db: Db): Stat {
    Stat(EngineerRows(db, EngineerTally(db)), DepartmentRows(DepartmentTally(db)))
  }

  /** The loop over one task's engineers (or departments). */
  method CountTask<K(!new)>(t: Tally<K>, ks: seq<K>, done: bool) returns (r: Tally<K>)
    ensures r == BumpAll(t, ks, done)
  {
    r := t;
    for j := 0 to |ks|
      invariant r == BumpAll(t, ks[..j], done)
    {
      var k := ks[j];
      if k !in r.counts {
        r := Tally(r.keys + [k], r.counts[k := Counts(0, 0)]);
      }
      var c := r.counts[k];
      if done {
        r := r.(counts := r.counts[k := c.(completed := c.completed + 1)]);
      } else {
        r := r.(counts := r.counts[k := c.(active := c.active + 1)]);
      }
      assert ks[..j + 1][..j] == ks[..j];
    }
    assert ks[..|ks|] == ks;
  }

  /** Lines 13-57: the walk over the live tasks and the two lists. */
  method ComputeStat(db: Db) returns (r: Stat)
    ensures r == StatOf(db)
  {
    var tasks := LiveTasks(db);
    var engineers: Tally<Engineer> := Tally([], map[]);
    var departments: Tally<Department> := Tally([], map[]);
    for i := 0 to |tasks|
      invariant engineers == TallyTasks(tasks[..i], EngineersOf(db))
      invariant departments == TallyTasks(tasks[..i], DepartmentsOf(db))
    {
      var task := tasks[i];
      TallySnoc(tasks, i, EngineersOf(db));
      TallySnoc(tasks, i, DepartmentsOf(db));
      engineers := CountTask(engineers, EngineersOf(db)(task), task.isDone);
      departments := CountTask(departments, DepartmentsOf(db)(task), task.isDone);
    }
    assert tasks[..|tasks|] == tasks;
    r := Stat(EngineerRows(db, engineers), DepartmentRows(departments));
  }

  /** One more task of the walk bumps its keys. */
  lemma TallySnoc<K(!new)>(ts: seq<Task>, i: nat, of: Task -> seq<K>)
    requires i < |ts|
    ensures TallyTasks(ts[..i + 1], of) == BumpAll(TallyTasks(ts[..i], of), of(ts[i]), ts[i].isDone)
  {
    TakeSnoc(ts, i);
    assert ts[..i + 1][..i] == ts[..i];
  }

  /** `get_stat`: the cached dict when there is one, else the computed one,
      stored under "stat" (with the default version). The stored dict always
      has its two keys, so it is never falsy and any cached value is used. */
  method GetStat(db: Db, cache: Cache<Stat>) returns (r: Stat)
    modifies cache
    ensures Address(StatKey, DefaultVersion) in old(cache.entries) ==>
      r == old(cache.entries)[Address(StatKey, DefaultVersion)] && cache.entries == old(cache.entries)
    ensures Address(StatKey, DefaultVersion) !in old(cache.entries) ==>
      r == StatOf(db) && cache.entries == old(cache.entries)[Address(StatKey, DefaultVersion) := r]
  {
    var cached := cache.Get(StatKey, DefaultVersion);
    if cached.Some? {
      return cached.value;
    }
    r := ComputeStat(db);
    cache.Set(StatKey, DefaultVersion, r);
  }

  lemma FindEngineerOwn(db: Db, e: Engineer)
    requires Valid(db) && e in db.engineers
    ensures FindEngineer(db, e.id) == Some(e)
  {
    var f := FindEngineer(db, e.id).value;
    var i :| 0 <= i < |db.engineers| && db.engineers[i] == e;
    var j :| 0 <= j < |db.engineers| && db.engineers[j] == f;
    assert i == j;
  }

  lemma FindDepartmentOwn(db: Db, d: Department)
    requires Valid(db) && d in db.departments
    ensures FindDepartment(db, d.id) == Some(d)
  {
    var f := FindDepartment(db, d.id).value;
    var i :| 0 <= i < |db.departments| && db.departments[i] == d;
    var j :| 0 <= j < |db.departments| && db.departments[j] == f;
    assert i == j;
  }

  /** The test "the task lists engineer e and is in the given state". */
  function ListsEngineer(e: Engineer, done: bool): Task -> bool {
    (t: Task) => e.id in t.engineers && t.isDone == done
  }

  function ListsDepartment(d: Department, done: bool): Task -> bool {
    (t: Task) => d.id in t.departments && t.isDone == done
  }

  /** When key k occurs on exactly the tasks `listed` picks, once each, it
      has an entry exactly when one of them is met, and its counts are the
      numbers of such open and done tasks. */
  lemma TallyOfListed<K(!new)>(
    ts: seq<Task>, of: Task -> seq<K>, k: K, listed: Task -> bool, open: Task -> bool, closed: Task -> bool)
    requires forall t :: t in ts ==> Occurrences(of(t), k) == if listed(t) then 1 else 0
    requires forall t :: open(t) == (listed(t) && !t.isDone)
    requires forall t :: closed(t) == (listed(t) && t.isDone)
    ensures var r := TallyTasks(ts, of);
      (k in r.keys <==> exists t :: t in ts && listed(t))
      && Get(r, k) == Counts(|Where(ts, open)|, |Where(ts, closed)|)
  {
    var r := TallyTasks(ts, of);
    TallyTasksMeaning(ts, of);
    CountInWhere(ts, of, k, false, listed, open);
    CountInWhere(ts, of, k, true, listed, closed);
    assert k in r.keys <==> k in AllKeys(ts, of);
    AllKeysMembers(ts, of);
    if k in r.keys {
      var t :| t in ts && k in of(t);
      OccurrencesPositive(of(t), k);
    }
    if exists t :: t in ts && listed(t) {
      var t :| t in ts && listed(t);
      OccurrencesPositive(of(t), k);
    }
  }

  lemma {:induction false} OccurrencesPositive<T(!new)>(s: seq<T>, x: T)
    ensures Occurrences(s, x) > 0 <==> x in s
  {
    if |s| > 0 {
      OccurrencesPositive(s[1..], x);
      assert s == [s[0]] + s[1..];
    }
  }

  /** Engineer e has an entry exactly when some live task lists it, and
      its two counts are the numbers of open and of done live tasks that
      list it; the entries come in the order the engineers are first met. */
  lemma EngineerStatMeaning(db: Db, e: Engineer)
    requires Valid(db) && e in db.engineers
    ensures var r := EngineerTally(db);
      r.keys == Dedup(AllKeys(LiveTasks(db), EngineersOf(db)))
      && (e in r.keys <==> exists t :: t in db.tasks && !t.deleted && e.id in t.engineers)
      && Get(r, e) == Counts(|Where(LiveTasks(db), ListsEngineer(e, false))|,
                             |Where(LiveTasks(db), ListsEngineer(e, true))|)
  {
    var ts := LiveTasks(db);
    var of := EngineersOf(db);
    var listed := (t: Task) => e.id in t.engineers;
    FindEngineerOwn(db, e);
    forall t | t in ts ensures Occurrences(of(t), e) == if listed(t) then 1 else 0 {
      ResolveOnce(t.engineers, EngineerLookup(db), e, e.id);
    }
    TallyTasksMeaning(ts, of);
    TallyOfListed(ts, of, e, listed, ListsEngineer(e, false), ListsEngineer(e, true));
  }

  /** The same for departments. */
  lemma DepartmentStatMeaning(db: Db, d: Department)
    requires Valid(db) && d in db.departments
    ensures var r := DepartmentTally(db);
      r.keys == Dedup(AllKeys(LiveTasks(db), DepartmentsOf(db)))
      && (d in r.keys <==> exists t :: t in db.tasks && !t.deleted && d.id in t.departments)
      && Get(r, d) == Counts(|Where(LiveTasks(db), ListsDepartment(d, false))|,
                             |Where(LiveTasks(db), ListsDepartment(d, true))|)
  {
    var ts := LiveTasks(db);
    var of := DepartmentsOf(db);
    var listed := (t: Task) => d.id in t.departments;
    FindDepartmentOwn(db, d);
    forall t | t in ts ensures Occurrences(of(t), d) == if listed(t) then 1 else 0 {
      ResolveOnce(t.departments, DepartmentLookup(db), d, d.id);
    }
    TallyTasksMeaning(ts, of);
    TallyOfListed(ts, of, d, listed, ListsDepartment(d, false), ListsDepartment(d, true));
  }

  /** Every row of the result is a database row listed on a live task, and
      no row appears twice. */
  lemma StatRowsFromLiveTasks(db: Db)
    ensures var e := EngineerTally(db);
      NoDup(e.keys) && forall x :: x in e.keys ==> x in db.engineers
    ensures var d := DepartmentTally(db);
      NoDup(d.keys) && forall x :: x in d.keys ==> x in db.departments
  {
    var ts := LiveTasks(db);
    TallyTasksMeaning(ts, EngineersOf(db));
    TallyTasksMeaning(ts, DepartmentsOf(db));
    AllKeysMembers(ts, EngineersOf(db));
    AllKeysMembers(ts, DepartmentsOf(db));
  }

  /** An engineer's open and done counts add up to the live tasks that
      list it. */
  lemma EngineerCountsAddUp(db: Db, e: Engineer)
    requires Valid(db) && e in db.engineers
    ensures Get(EngineerTally(db), e).active + Get(EngineerTally(db), e).completed
      == |Where(LiveTasks(db), (t: Task) => e.id in t.engineers)|
  {
    var ts := LiveTasks(db);
    var listed := (t: Task) => e.id in t.engineers;
    EngineerStatMeaning(db, e);
    var w := Where(ts, listed);
    WhereWhere(ts, listed, (t: Task) => t.isDone, ListsEngineer(e, true));
    WhereWhere(ts, listed, (t: Task) => !t.isDone, ListsEngineer(e, false));
    WherePartition(w, (t: Task) => t.isDone, (t: Task) => !t.isDone);
  }
}
