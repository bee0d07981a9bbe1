/** tasks/services/tasks.py: the older `get_filtered_tasks`. It runs the
    task filter over every task, narrows to the user's own tasks and to an
    object, orders by due time alone and counts done and open tasks.

    As written it builds the task filter from the query string only, with
    no request; the filter's "my tasks" method then reads the user of a
    missing request. `GetFilteredTasksAsWritten` keeps that, and
    `GetFilteredTasks` is the same function with the request passed on, as
    tasks/services/tasks_prepare.py does. */
module TasksLegacy {
  import opened Wrappers
  import opened Seqs
  import opened Sorting
  import opened Domain
  import opened QueryParams
  import opened TaskQuery
  import opened Filters

  /** The context dict the function returns. */
  datatype Context = Context(
    tasks: seq<Task>,
    doneCount: nat,
    notDoneCount: nat,
    showMyTasksOnly: bool,
    sortOrder: string)

  /** The "my tasks" flag: only the exact text "true" turns it on. */
  predicate ShowMine(get: Query) {
    Get(get, "show_my_tasks_only") == Some("true")
  }

  /** The raw sort order, "desc" when absent. */
  function SortOrder(get: Query): string {
    GetOr(get, "sort_order", "desc")
  }

  /** The ordering the function asks for: due time alone. */
  function OrderKey(get: Query): Task -> Key {
    if SortOrder(get) == "asc" then CompletionAscKey else CompletionDescKey
  }

  /** Lines 16-20: with "my tasks" on, only the engineer's tasks, and
      none at all for a user without an engineer. */
  function MineNarrow(db: Db, u: User, get: Query, filtered: seq<Task>): (r: seq<Task>)
    ensures forall t :: t in r ==> t in filtered
    ensures NoDup(filtered) ==> NoDup(r)
    ensures !ShowMine(get) ==> r == filtered
    ensures ShowMine(get) && EngineerOfUser(db, u.id).None? ==> r == []
    ensures ShowMine(get) && EngineerOfUser(db, u.id).Some? ==>
      forall t :: t in r <==> (t in filtered && EngineerOfUser(db, u.id).value.id in t.engineers)
  {
    var engineer := EngineerOfUser(db, u.id);
    if !ShowMine(get) then filtered
    else if engineer.Some? then
      var c := HasEngineer(engineer.value.id);
      assert NoDup(filtered) ==> NoDup(Select(db, filtered, c)) by {
        if NoDup(filtered) { SelectNoDup(db, filtered, c); }
      }
      Select(db, filtered, c)
    else []
  }

  /** Lines 23-24: the tasks linked to the object, when one is given. */
  function Scope(db: Db, obj: Option<Obj>, s: seq<Task>): (r: seq<Task>)
    ensures forall t :: t in r ==> t in s
    ensures NoDup(s) ==> NoDup(r)
    ensures obj.Some? ==> forall t :: t in r <==> (t in s && TaskOnObject(t, obj.value))
    ensures obj.None? ==> r == s
  {
    if obj.Some? then
      var c := LinkedTo(obj.value);
      assert NoDup(s) ==> NoDup(Select(db, s, c)) by {
        if NoDup(s) { SelectNoDup(db, s, c); }
      }
      Select(db, s, c)
    else s
  }

  /** What the function does with the filtered tasks: the "my tasks"
      narrowing, the object scope, the ordering and the two counts. */
  function Finish(db: Db, u: User, get: Query, obj: Option<Obj>, filtered: seq<Task>): Context {
    var s := SortBy(Scope(db, obj, MineNarrow(db, u, get, filtered)), OrderKey(get));
    Context(s, |Select(db, s, Done(true))|, |Select(db, s, Done(false))|, ShowMine(get), SortOrder(get))
  }

  /** `get_filtered_tasks` as written: the filter gets no request. */
  function GetFilteredTasksAsWritten(db: Db, u: User, get: Query, obj: Option<Obj>): Result<Context, FilterError> {
    var filtered := FilterTasks(db, None, TaskDefaults(get), db.tasks);
    if filtered.Err? then Err(filtered.error) else Ok(Finish(db, u, get, obj, filtered.value))
  }

  /** A filter that has its request never fails. */
  lemma FilterWithRequestOk(db: Db, u: User, data: Query, ts: seq<Task>)
    ensures FilterTasks(db, Some(u), data, ts).Ok?
  {
  }

  /** `get_filtered_tasks` with the request handed to the filter. */
  function GetFilteredTasks(db: Db, u: User, get: Query, obj: Option<Obj>): Context {
    FilterWithRequestOk(db, u, TaskDefaults(get), db.tasks);
    Finish(db, u, get, obj, FilterTasks(db, Some(u), TaskDefaults(get), db.tasks).value)
  }

  /** As written, the function fails exactly when the filter's boolean
      field can read the "my tasks" value, counting the "false" the filter
      puts in when it is absent; so it fails for an absent value, for
      "true" and for "false", and whenever it succeeds the "my tasks"
      branch is off. */
  lemma AsWrittenRaises(db: Db, u: User, get: Query, obj: Option<Obj>)
    ensures GetFilteredTasksAsWritten(db, u, get, obj).Err?
      <==> NullBool(Some(Get(get, "show_my_tasks_only").GetOr("false"))).Some?
    ensures Get(get, "show_my_tasks_only") in {None, Some("true"), Some("false")} ==>
      GetFilteredTasksAsWritten(db, u, get, obj) == Err(AttributeError)
    ensures GetFilteredTasksAsWritten(db, u, get, obj).Ok? ==>
      !GetFilteredTasksAsWritten(db, u, get, obj).value.showMyTasksOnly
  {
    TaskDefaultsValues(get);
    NullBoolWords();
  }

  /** The page without a query string always fails. */
  lemma AsWrittenDefaultRaises(db: Db, u: User, obj: Option<Obj>)
    ensures GetFilteredTasksAsWritten(db, u, [], obj) == Err(AttributeError)
  {
    AsWrittenRaises(db, u, [], obj);
  }

  /** Passing the request changes nothing where the original succeeds. */
  lemma CorrectionAgrees(db: Db, u: User, get: Query, obj: Option<Obj>)
    requires GetFilteredTasksAsWritten(db, u, get, obj).Ok?
    ensures GetFilteredTasksAsWritten(db, u, get, obj) == Ok(GetFilteredTasks(db, u, get, obj))
  {
    var data := TaskDefaults(get);
    assert NullBool(Get(data, "show_my_tasks_only")).None?;
    FilterWithRequestOk(db, u, data, db.tasks);
  }

  /** The result holds distinct tasks of the database, linked to the
      object when one is given, ordered by due time as asked, and its two
      counts add up to its length. */
  lemma GetFilteredTasksShape(db: Db, u: User, get: Query, obj: Option<Obj>)
    requires Valid(db)
    ensures var r := GetFilteredTasks(db, u, get, obj);
      NoDup(r.tasks)
      && (forall t :: t in r.tasks ==> t in db.tasks)
      && (obj.Some? ==> forall t :: t in r.tasks ==> TaskOnObject(t, obj.value))
      && SortedBy(r.tasks, OrderKey(get))
      && r.doneCount + r.notDoneCount == |r.tasks|
  {
    var data := TaskDefaults(get);
    TasksNoDup(db);
    FilterTasksNarrows(db, Some(u), data, db.tasks);
    var f := FilterTasks(db, Some(u), data, db.tasks).value;
    FinishShape(db, u, get, obj, f, db.tasks);
  }

  lemma FinishShape(db: Db, u: User, get: Query, obj: Option<Obj>, f: seq<Task>, all: seq<Task>)
    requires NoDup(f) && forall t :: t in f ==> t in all
    ensures var r := Finish(db, u, get, obj, f);
      NoDup(r.tasks)
      && (forall t :: t in r.tasks ==> t in all)
      && (obj.Some? ==> forall t :: t in r.tasks ==> TaskOnObject(t, obj.value))
      && SortedBy(r.tasks, OrderKey(get))
      && r.doneCount + r.notDoneCount == |r.tasks|
  {
    var s := Scope(db, obj, MineNarrow(db, u, get, f));
    SortNoDup(s, OrderKey(get));
    SortKeepsTasks(s, OrderKey(get));
    DoneCountsAddUp(db, SortBy(s, OrderKey(get)));
  }

  /** Done and open tasks add up to all of them. */
  lemma DoneCountsAddUp(db: Db, ts: seq<Task>)
    ensures |Select(db, ts, Done(true))| + |Select(db, ts, Done(false))| == |ts|
  {
    WherePartition(ts, Pred(db, Done(true)), Pred(db, Done(false)));
  }

  /** With "my tasks" on, the result keeps only the user's engineer's
      tasks, and is empty for a user without an engineer, although the
      task filter itself keeps every task for such a user. */
  lemma GetFilteredTasksMine(db: Db, u: User, get: Query, obj: Option<Obj>)
    requires ShowMine(get)
    ensures var r := GetFilteredTasks(db, u, get, obj);
      r.showMyTasksOnly
      && (EngineerOfUser(db, u.id).Some? ==>
            forall t :: t in r.tasks ==> EngineerOfUser(db, u.id).value.id in t.engineers)
      && (EngineerOfUser(db, u.id).None? ==> r.tasks == [] && r.doneCount == 0 && r.notDoneCount == 0)
  {
    var data := TaskDefaults(get);
    FilterWithRequestOk(db, u, data, db.tasks);
    var f := FilterTasks(db, Some(u), data, db.tasks).value;
    FinishMine(db, u, get, obj, f);
  }

  lemma FinishMine(db: Db, u: User, get: Query, obj: Option<Obj>, f: seq<Task>)
    requires ShowMine(get)
    ensures var r := Finish(db, u, get, obj, f);
      r.showMyTasksOnly
      && (EngineerOfUser(db, u.id).Some? ==>
            forall t :: t in r.tasks ==> EngineerOfUser(db, u.id).value.id in t.engineers)
      && (EngineerOfUser(db, u.id).None? ==> r.tasks == [] && r.doneCount == 0 && r.notDoneCount == 0)
  {
    var s := Scope(db, obj, MineNarrow(db, u, get, f));
    SortKeepsTasks(s, OrderKey(get));
  }
}
