/** tasks/services/tasks_prepare.py: which tasks a user may see, the
    counters over a filtered task list, the filtered list of the task page
    and the page itself, cached per page and user when no filter is
    applied. */
module TasksPrepare {
  import opened Wrappers
  import opened Seqs
  import opened Sorting
  import opened Domain
  import opened QueryParams
  import opened TaskQuery
  import opened CacheStore
  import Filters
  import Service

  // ---------------------------------------------------------- permissions

  /** The user belongs to department dep through their engineer; with dep
      None, the user has no engineer or one without a department. */
  predicate UserInDepartment(db: Db, uid: Id, dep: Option<Id>) {
    var e := EngineerOfUser(db, uid);
    if dep.None? then e.None? || e.value.department.None?
    else e.Some? && e.value.department == dep
  }

  function UserIds(users: seq<User>): (r: seq<Id>)
    ensures forall id :: id in r <==> exists u :: u in users && u.id == id
  {
    if |users| == 0 then []
    else
      assert forall u :: u in users <==> u == users[0] || u in users[1..] by {
        assert users == [users[0]] + users[1..];
      }
      [users[0].id] + UserIds(users[1..])
  }

  /** `User.objects.filter(engineer__department=dep)`. */
  function DepartmentUsers(db: Db, dep: Option<Id>): (r: seq<Id>)
    ensures forall uid :: uid in r <==> (exists u :: u in db.users && u.id == uid) && UserInDepartment(db, uid, dep)
  {
    UserIds(Where(db.users, (u: User) => UserInDepartment(db, u.id, dep)))
  }

  /** The condition `permission_filter` puts on tasks, by role. */
  function PermissionCond(db: Db, u: User): Cond {
    var e := EngineerOfUser(db, u.id);
    if u.isSuperuser then Or(NotDeleted, OwnCond(u.id))
    else if e.Some? && e.value.headOfDepartment then HeadCond(db, e.value.department, u.id)
    else if e.Some? then EngineerCond(e.value, u.id)
    else Or(Nothing, OwnCond(u.id))
  }

  /** The user's own tasks that are not deleted. */
  function OwnCond(uid: Id): Cond {
    And(CreatedBy(uid), NotDeleted)
  }

  /** What a head of department sees: the department's tasks, those of its
      engineers and those its users created, and their own. */
  function HeadCond(db: Db, dep: Option<Id>, uid: Id): Cond {
    Or(And(Or(Or(InDepartment(dep), EngineerInDepartment(dep)), CreatorIn(DepartmentUsers(db, dep))), NotDeleted), OwnCond(uid))
  }

  /** What another engineer sees: the tasks assigned to them or, when they
      have one, to their department, and their own. */
  function EngineerCond(e: Engineer, uid: Id): Cond {
    if e.department.Some? then
      Or(And(Or(HasEngineer(e.id), InDepartment(e.department)), NotDeleted), OwnCond(uid))
    else
      Or(And(HasEngineer(e.id), NotDeleted), OwnCond(uid))
  }

  /** `permission_filter(user)`: the tasks the user may see, each once, in
      creation order. */
  function PermissionFilter(db: Db, u: User): (r: seq<Task>)
    ensures forall t :: t in r <==> t in db.tasks && Holds(db, t, PermissionCond(db, u))
    ensures SortedBy(r, CreateKey)
  {
    var s := Select(db, db.tasks, PermissionCond(db, u));
    SortKeepsTasks(s, CreateKey);
    SortBy(s, CreateKey)
  }

  /** The visible tasks are distinct rows of the task table. */
  lemma PermissionFilterDistinct(db: Db, u: User)
    requires Valid(db)
    ensures NoDup(PermissionFilter(db, u))
  {
    TasksNoDup(db);
    SelectNoDup(db, db.tasks, PermissionCond(db, u));
    SortNoDup(Select(db, db.tasks, PermissionCond(db, u)), CreateKey);
  }

  /** Who may see a task, role by role, as the comments of
      `permission_filter` put it: nobody sees a deleted task; everyone sees
      what they created; an administrator sees everything; a head of
      department the tasks of the department, of its engineers and of its
      users; another engineer the tasks assigned to them or to their
      department. */
  predicate MaySee(db: Db, u: User, t: Task) {
    var e := EngineerOfUser(db, u.id);
    !t.deleted
    && (u.isSuperuser
        || t.creator == u.id
        || (e.Some? && e.value.headOfDepartment
            && (TaskInDepartment(t, e.value.department) || TaskHasEngineerInDepartment(db, t, e.value.department)
                || t.creator in DepartmentUsers(db, e.value.department)))
        || (e.Some? && !e.value.headOfDepartment
            && (e.value.id in t.engineers
                || (e.value.department.Some? && e.value.department.value in t.departments))))
  }

  /** The query `permission_filter` builds selects exactly the tasks the
      user may see. */
  lemma PermissionCondMeaning(db: Db, u: User, t: Task)
    ensures Holds(db, t, PermissionCond(db, u)) <==> MaySee(db, u, t)
  {
    var e := EngineerOfUser(db, u.id);
    if u.isSuperuser {
      OwnMeaning(db, u, t);
    } else if e.Some? && e.value.headOfDepartment {
      HeadCondMeaning(db, u, t, e.value);
    } else if e.Some? {
      EngineerCondMeaning(db, u, t, e.value);
    } else {
      OwnMeaning(db, u, t);
    }
  }

  lemma OwnMeaning(db: Db, u: User, t: Task)
    ensures Holds(db, t, Or(NotDeleted, OwnCond(u.id))) <==> !t.deleted
    ensures Holds(db, t, Or(Nothing, OwnCond(u.id))) <==> t.creator == u.id && !t.deleted
  {
    OwnHolds(db, t, u.id);
    OrMeaning(db, t, NotDeleted, OwnCond(u.id));
    OrMeaning(db, t, Nothing, OwnCond(u.id));
  }

  lemma OwnHolds(db: Db, t: Task, uid: Id)
    ensures Holds(db, t, OwnCond(uid)) <==> t.creator == uid && !t.deleted
  {
    AndMeaning(db, t, CreatedBy(uid), NotDeleted);
  }

  lemma OrMeaning(db: Db, t: Task, a: Cond, b: Cond)
    ensures Holds(db, t, Or(a, b)) <==> Holds(db, t, a) || Holds(db, t, b)
  {
  }

  lemma AndMeaning(db: Db, t: Task, a: Cond, b: Cond)
    ensures Holds(db, t, And(a, b)) <==> Holds(db, t, a) && Holds(db, t, b)
  {
  }

  lemma HeadCondMeaning(db: Db, u: User, t: Task, e: Engineer)
    requires !u.isSuperuser && EngineerOfUser(db, u.id) == Some(e) && e.headOfDepartment
    ensures Holds(db, t, PermissionCond(db, u)) <==> MaySee(db, u, t)
  {
    assert PermissionCond(db, u) == HeadCond(db, e.department, u.id);
    HeadCondHolds(db, t, e.department, u.id);
    MaySeeAsHead(db, u, t, e);
  }

  lemma HeadCondHolds(db: Db, t: Task, dep: Option<Id>, uid: Id)
    ensures Holds(db, t, HeadCond(db, dep, uid)) <==> (!t.deleted
      && (TaskInDepartment(t, dep) || TaskHasEngineerInDepartment(db, t, dep)
          || t.creator in DepartmentUsers(db, dep) || t.creator == uid))
  {
    AreaHolds(db, t, dep, DepartmentUsers(db, dep), uid);
  }

  lemma AreaHolds(db: Db, t: Task, dep: Option<Id>, users: seq<Id>, uid: Id)
    ensures Holds(db, t, Or(And(Or(Or(InDepartment(dep), EngineerInDepartment(dep)), CreatorIn(users)), NotDeleted), OwnCond(uid)))
      <==> (!t.deleted
            && (TaskInDepartment(t, dep) || TaskHasEngineerInDepartment(db, t, dep) || t.creator in users || t.creator == uid))
  {
    var area := Or(Or(InDepartment(dep), EngineerInDepartment(dep)), CreatorIn(users));
    AreaInnerHolds(db, t, dep, users);
    AndMeaning(db, t, area, NotDeleted);
    OwnHolds(db, t, uid);
    OrMeaning(db, t, And(area, NotDeleted), OwnCond(uid));
  }

  lemma AreaInnerHolds(db: Db, t: Task, dep: Option<Id>, users: seq<Id>)
    ensures Holds(db, t, Or(Or(InDepartment(dep), EngineerInDepartment(dep)), CreatorIn(users)))
      <==> (TaskInDepartment(t, dep) || TaskHasEngineerInDepartment(db, t, dep) || t.creator in users)
  {
    var inDep, engIn := InDepartment(dep), EngineerInDepartment(dep);
    OrMeaning(db, t, inDep, engIn);
    OrMeaning(db, t, Or(inDep, engIn), CreatorIn(users));
  }

  /** What a head of department may see. */
  lemma MaySeeAsHead(db: Db, u: User, t: Task, e: Engineer)
    requires !u.isSuperuser && EngineerOfUser(db, u.id) == Some(e) && e.headOfDepartment
    ensures MaySee(db, u, t) <==> (!t.deleted
      && (TaskInDepartment(t, e.department) || TaskHasEngineerInDepartment(db, t, e.department)
          || t.creator in DepartmentUsers(db, e.department) || t.creator == u.id))
  {
  }

  lemma EngineerCondMeaning(db: Db, u: User, t: Task, e: Engineer)
    requires !u.isSuperuser && EngineerOfUser(db, u.id) == Some(e) && !e.headOfDepartment
    ensures Holds(db, t, PermissionCond(db, u)) <==> MaySee(db, u, t)
  {
    assert PermissionCond(db, u) == EngineerCond(e, u.id);
    EngineerCondHolds(db, t, e, u.id);
    MaySeeAsEngineer(db, u, t, e);
  }

  lemma EngineerCondHolds(db: Db, t: Task, e: Engineer, uid: Id)
    ensures Holds(db, t, EngineerCond(e, uid)) <==> (!t.deleted
      && (t.creator == uid || e.id in t.engineers || (e.department.Some? && e.department.value in t.departments)))
  {
    OwnHolds(db, t, uid);
    var mine := HasEngineer(e.id);
    assert Holds(db, t, mine) == (e.id in t.engineers);
    if e.department.Some? {
      var inDep := InDepartment(e.department);
      assert Holds(db, t, inDep) == (e.department.value in t.departments);
      OrMeaning(db, t, mine, inDep);
      AndMeaning(db, t, Or(mine, inDep), NotDeleted);
      OrMeaning(db, t, And(Or(mine, inDep), NotDeleted), OwnCond(uid));
    } else {
      AndMeaning(db, t, mine, NotDeleted);
      OrMeaning(db, t, And(mine, NotDeleted), OwnCond(uid));
    }
  }

  /** What an engineer who is not a head of department may see. */
  lemma MaySeeAsEngineer(db: Db, u: User, t: Task, e: Engineer)
    requires !u.isSuperuser && EngineerOfUser(db, u.id) == Some(e) && !e.headOfDepartment
    ensures MaySee(db, u, t) <==> (!t.deleted
      && (t.creator == u.id || e.id in t.engineers || (e.department.Some? && e.department.value in t.departments)))
  {
  }

  /** No role ever sees a deleted task, and everyone sees the tasks they
      created and did not delete. */
  lemma PermissionFilterOwnAndDeleted(db: Db, u: User, t: Task)
    ensures t in PermissionFilter(db, u) ==> !t.deleted
    ensures t in db.tasks && t.creator == u.id && !t.deleted ==> t in PermissionFilter(db, u)
  {
    PermissionCondMeaning(db, u, t);
  }

  /** An administrator sees every task that is not deleted. */
  lemma PermissionFilterSuperuser(db: Db, u: User, t: Task)
    requires u.isSuperuser
    ensures t in PermissionFilter(db, u) <==> t in db.tasks && !t.deleted
  {
    PermissionCondMeaning(db, u, t);
  }

  /** A head of department sees the tasks of the department, those of its
      engineers, those created by its users, and their own. */
  lemma PermissionFilterHead(db: Db, u: User, t: Task)
    requires !u.isSuperuser
    requires EngineerOfUser(db, u.id).Some? && EngineerOfUser(db, u.id).value.headOfDepartment
    ensures var dep := EngineerOfUser(db, u.id).value.department;
      t in PermissionFilter(db, u) <==>
        t in db.tasks && !t.deleted
        && (TaskInDepartment(t, dep) || TaskHasEngineerInDepartment(db, t, dep)
            || t.creator in DepartmentUsers(db, dep) || t.creator == u.id)
  {
    PermissionCondMeaning(db, u, t);
  }

  /** Any other engineer sees the tasks they are assigned to, those of
      their department when they have one, and their own. */
  lemma PermissionFilterEngineer(db: Db, u: User, t: Task)
    requires !u.isSuperuser
    requires EngineerOfUser(db, u.id).Some? && !EngineerOfUser(db, u.id).value.headOfDepartment
    ensures var e := EngineerOfUser(db, u.id).value;
      t in PermissionFilter(db, u) <==>
        t in db.tasks && !t.deleted
        && (e.id in t.engineers || (e.department.Some? && e.department.value in t.departments)
            || t.creator == u.id)
  {
    PermissionCondMeaning(db, u, t);
  }

  /** A user without an engineer record sees only what they created. */
  lemma PermissionFilterNoEngineer(db: Db, u: User, t: Task)
    requires !u.isSuperuser && EngineerOfUser(db, u.id).None?
    ensures t in PermissionFilter(db, u) <==> t in db.tasks && !t.deleted && t.creator == u.id
  {
    PermissionCondMeaning(db, u, t);
  }

  /** An administrator sees at least what any other user sees. */
  lemma SuperuserSeesMost(db: Db, admin: User, u: User)
    requires admin.isSuperuser
    ensures forall t :: t in PermissionFilter(db, u) ==> t in PermissionFilter(db, admin)
  {
    forall t | t in PermissionFilter(db, u) ensures t in PermissionFilter(db, admin) {
      PermissionFilterOwnAndDeleted(db, u, t);
      PermissionFilterSuperuser(db, admin, t);
    }
  }

  // ------------------------------------------------------------- counters

  datatype TasksCounter = TasksCounter(
    doneCount: nat,
    notDoneCount: nat,
    tasksDueTodayCount: nat,
    myTasksCount: nat,
    availableTasksCount: nat)

  /** `filter(engineers=engineer)`; with no engineer, the tasks without
      any. */
  function MineCond(engineer: Option<Engineer>): Cond {
    if engineer.Some? then HasEngineer(engineer.value.id) else NoEngineer
  }

  /** `get_tasks_count`; `now` is the current time in seconds, whose day
      is "today". */
  function GetTasksCount(db: Db, queryset: seq<Task>, engineer: Option<Engineer>, available: seq<Task>, now: int)
    : (c: TasksCounter)
    ensures c.doneCount <= |queryset| && c.notDoneCount <= |queryset| && c.myTasksCount <= |queryset|
    ensures c.availableTasksCount == |available|
  {
    TasksCounter(
      |Select(db, queryset, Done(true))|,
      |Select(db, queryset, Done(false))|,
      |Select(db, queryset, And(Done(false), DueOn(DayOf(now))))|,
      |Select(db, queryset, MineCond(engineer))|,
      |available|)
  }

  /** Done and not-done tasks add up to all of them, and the tasks due
      today are among those not done. */
  lemma CountsAddUp(db: Db, queryset: seq<Task>, engineer: Option<Engineer>, available: seq<Task>, now: int)
    ensures var c := GetTasksCount(db, queryset, engineer, available, now);
      c.doneCount + c.notDoneCount == |queryset| && c.tasksDueTodayCount <= c.notDoneCount
  {
    WherePartition(queryset, Pred(db, Done(true)), Pred(db, Done(false)));
    var today := DayOf(now);
    SelectSelect(db, queryset, Done(false), DueOn(today));
    assert |Select(db, queryset, And(Done(false), DueOn(today)))| <= |Select(db, queryset, Done(false))|;
  }

  // ---------------------------------------------------------- task listing

  /** The raw values of the display parameters, as the two filter sets
      read them after their defaults. */
  datatype FilterParams = FilterParams(
    showMyTasksOnly: string,
    sortOrder: string,
    showActiveTask: string,
    showDoneTask: string)

  datatype FilteredTasksResult = FilteredTasksResult(
    tasks: seq<Task>,
    tasksCounters: TasksCounter,
    filterParams: FilterParams)

  /** The tasks `get_filtered_tasks` works on once the task filter set and
      the object have been applied. */
  function FilteredQueryset(db: Db, u: User, get: Query, obj: Option<Obj>): seq<Task> {
    var filtered := Filters.FilterTasks(db, Some(u), Filters.TaskDefaults(get), PermissionFilter(db, u));
    var qs := if filtered.Ok? then filtered.value else [];
    if obj.Some? then Select(db, qs, LinkedTo(obj.value)) else qs
  }

  /** The tasks the available counter counts: every visible task, of the
      object when there is one. */
  function AvailableQueryset(db: Db, u: User, obj: Option<Obj>): seq<Task> {
    var all := PermissionFilter(db, u);
    if obj.Some? then Select(db, all, LinkedTo(obj.value)) else all
  }

  /** What `get_filtered_tasks` returns, for the request's user and
      parameters, and the object the page is about if any. */
  function FilteredTasks(db: Db, u: User, get: Query, obj: Option<Obj>, now: int): FilteredTasksResult {
    var qs := FilteredQueryset(db, u, get, obj);
    var taskData := Filters.TaskDefaults(get);
    var doneData := Filters.DoneDefaults(get);
    FilteredTasksResult(
      Filters.FilterByDone(db, doneData, qs),
      GetTasksCount(db, qs, EngineerOfUser(db, u.id), AvailableQueryset(db, u, obj), now),
      FilterParams(
        GetOr(taskData, "show_my_tasks_only", ""), GetOr(taskData, "sort_order", ""),
        GetOr(doneData, "show_active_task", ""), GetOr(doneData, "show_done_task", "")))
  }

  /** `get_filtered_tasks`: permissions, then the task filter set, then the
      object, then the counters, then the active/done toggle. */
  method GetFilteredTasks(db: Db, u: User, get: Query, obj: Option<Obj>, now: int) returns (r: FilteredTasksResult)
    ensures r == FilteredTasks(db, u, get, obj, now)
  {
    var tasksQs := PermissionFilter(db, u);
    var tasksQsAll := tasksQs;
    var tasksFilter := new Filters.TaskFilter(get, Some(u));
    var filtered := tasksFilter.Qs(db, tasksQs);
    tasksQs := if filtered.Ok? then filtered.value else [];
    var availableQueryset;
    if obj.Some? {
      tasksQs := Select(db, tasksQs, LinkedTo(obj.value));
      availableQueryset := Select(db, tasksQsAll, LinkedTo(obj.value));
    } else {
      availableQueryset := tasksQsAll;
    }
    var counters := GetTasksCount(db, tasksQs, EngineerOfUser(db, u.id), availableQueryset, now);
    var byDone := new Filters.TaskFilterByDone(get);
    var shown := byDone.Qs(db, tasksQs);
    r := FilteredTasksResult(shown, counters,
      FilterParams(
        GetOr(tasksFilter.data, "show_my_tasks_only", ""), GetOr(tasksFilter.data, "sort_order", ""),
        GetOr(byDone.data, "show_active_task", ""), GetOr(byDone.data, "show_done_task", "")));
  }

  /** Before the toggle, the tasks are visible ones, each once, linked to
      the object when there is one. The task filter never fails here, since
      the request is there. */
  lemma FilteredQuerysetVisible(db: Db, u: User, get: Query, obj: Option<Obj>)
    requires Valid(db)
    ensures var qs := FilteredQueryset(db, u, get, obj);
      && NoDup(qs)
      && (forall t :: t in qs ==> t in PermissionFilter(db, u))
      && (obj.Some? ==> forall t :: t in qs ==> TaskOnObject(t, obj.value))
  {
    var all := PermissionFilter(db, u);
    PermissionFilterDistinct(db, u);
    var data := Filters.TaskDefaults(get);
    Filters.FilterTasksNarrows(db, Some(u), data, all);
    var base := Filters.FilterTasks(db, Some(u), data, all).value;
    if obj.Some? {
      LinkedNarrows(db, base, obj.value);
    }
  }

  /** Keeping the tasks linked to an object keeps them distinct, and keeps
      only tasks linked to it. */
  lemma LinkedNarrows(db: Db, ts: seq<Task>, o: Obj)
    requires NoDup(ts)
    ensures NoDup(Select(db, ts, LinkedTo(o)))
    ensures forall t :: t in Select(db, ts, LinkedTo(o)) <==> t in ts && TaskOnObject(t, o)
  {
    SelectNoDup(db, ts, LinkedTo(o));
  }

  /** The listed tasks are tasks the user may see, each once, never a
      deleted one; with an object, only tasks linked to it. */
  lemma FilteredTasksVisible(db: Db, u: User, get: Query, obj: Option<Obj>, now: int)
    requires Valid(db)
    ensures var r := FilteredTasks(db, u, get, obj, now);
      && NoDup(r.tasks)
      && (forall t :: t in r.tasks ==> t in PermissionFilter(db, u) && !t.deleted)
      && (obj.Some? ==> forall t :: t in r.tasks ==> TaskOnObject(t, obj.value))
  {
    var qs := FilteredQueryset(db, u, get, obj);
    FilteredQuerysetVisible(db, u, get, obj);
    Filters.FilterByDoneNarrows(db, Filters.DoneDefaults(get), qs);
    forall t | t in qs ensures !t.deleted {
      PermissionFilterOwnAndDeleted(db, u, t);
    }
  }

  /** The counters describe the filtered list before the active/done
      toggle: the done and open tasks add up to it, and the available count
      is every visible task (of the object, when there is one). */
  lemma FilteredTasksCounters(db: Db, u: User, get: Query, obj: Option<Obj>, now: int)
    ensures var r := FilteredTasks(db, u, get, obj, now);
      && r.tasksCounters.doneCount + r.tasksCounters.notDoneCount >= |r.tasks|
      && r.tasksCounters.availableTasksCount == |AvailableQueryset(db, u, obj)|
  {
    var qs := FilteredQueryset(db, u, get, obj);
    CountsAddUp(db, qs, EngineerOfUser(db, u.id), AvailableQueryset(db, u, obj), now);
    Filters.FilterByDoneNarrows(db, Filters.DoneDefaults(get), qs);
  }

  // ------------------------------------------------------------ task page

  /** A task of the page as the template receives it: `time_left` (whole
      hours to the deadline, never negative) and `time_now` are set by the
      listing loop; None until then. */
  datatype TaskView = TaskView(task: Task, timeLeft: Option<int>, timeNow: Option<int>)

  /** `max(int((completion - now).total_seconds() // 3600), 0)`. */
  function TimeLeft(completion: int, now: int): (h: int)
    ensures h >= 0
    ensures h == 0 <==> completion - now < 3600
    ensures h > 0 ==> h * 3600 <= completion - now < (h + 1) * 3600
  {
    var hours := (completion - now) / 3600;
    if hours > 0 then hours else 0
  }

  /** One task after the loop's body. */
  function Annotated(v: TaskView, now: int): TaskView {
    v.(timeLeft := Some(TimeLeft(v.task.completionTime, now)), timeNow := Some(now))
  }

  /** The listing loop: every task of the page gets its hours left and the
      current time, in place; `completion_time` is never null, so the
      branch for a missing deadline is not taken. */
  method AnnotatePage(page: array<TaskView>, now: int)
    modifies page
    ensures forall i :: 0 <= i < page.Length ==> page[i] == Annotated(old(page[i]), now)
  {
    for i := 0 to page.Length
      invariant forall j :: 0 <= j < i ==> page[j] == Annotated(old(page[j]), now)
      invariant forall j :: i <= j < page.Length ==> page[j] == old(page[j])
    {
      var task := page[i];
      page[i] := task.(timeLeft := Some(TimeLeft(task.task.completionTime, now)), timeNow := Some(now));
    }
  }

  /** The page's tasks once the loop has run over them. */
  function AnnotateAll(items: seq<Task>, now: int): (vs: seq<TaskView>)
    ensures |vs| == |items|
    ensures forall i :: 0 <= i < |items| ==> vs[i] == Annotated(TaskView(items[i], None, None), now)
  {
    seq(|items|, i requires 0 <= i < |items| => Annotated(TaskView(items[i], None, None), now))
  }

  /** The dict `get_tasks` returns and caches. */
  datatype TasksPage = TasksPage(
    tasks: seq<TaskView>,
    paginationData: Service.Pagination<Task>,
    taskCount: TasksCounter,
    filterParams: FilterParams)

  /** `f'tasks_page:{page_number}:{request.user}'`: a user is written as
      their username. */
  function TasksPageKey(pageNumber: string, u: User): string {
    "tasks_page:" + pageNumber + ":" + u.username
  }

  const TasksPageTimeout: nat := 300

  /** What `get_tasks` computes when it does not answer from the cache. */
  function BuildTasksPage(db: Db, u: User, get: Query, pageNumber: string, perPage: nat, obj: Option<Obj>, now: int)
    : (p: TasksPage)
    requires perPage >= 1
    ensures |p.tasks| == |p.paginationData.page.items|
    ensures forall i :: 0 <= i < |p.tasks| ==>
      p.tasks[i].task == p.paginationData.page.items[i]
      && p.tasks[i].timeLeft == Some(TimeLeft(p.tasks[i].task.completionTime, now))
      && p.tasks[i].timeNow == Some(now)
  {
    var filtered := FilteredTasks(db, u, get, obj, now);
    var pagination := Service.PaginateQueryset(filtered.tasks, pageNumber, perPage);
    TasksPage(AnnotateAll(pagination.page.items, now), pagination, filtered.tasksCounters, filtered.filterParams)
  }

  /** The part of `get_tasks` after the cache lookup: filter, paginate,
      then annotate the page's tasks in place. */
  method ListTasks(db: Db, u: User, get: Query, pageNumber: string, perPage: nat, obj: Option<Obj>, now: int)
    returns (r: TasksPage)
    requires perPage >= 1
    ensures r == BuildTasksPage(db, u, get, pageNumber, perPage, obj, now)
  {
    var filteredTask := GetFilteredTasks(db, u, get, obj, now);
    var paginationData := Service.PaginateQueryset(filteredTask.tasks, pageNumber, perPage);
    var tasks := AnnotatedPage(paginationData.page.items, now);
    r := TasksPage(tasks, paginationData, filteredTask.tasksCounters, filteredTask.filterParams);
  }

  /** The page's tasks as objects the loop updates. */
  method AnnotatedPage(items: seq<Task>, now: int) returns (vs: seq<TaskView>)
    ensures vs == AnnotateAll(items, now)
  {
    var page := new TaskView[|items|](i requires 0 <= i < |items| => TaskView(items[i], None, None));
    AnnotatePage(page, now);
    vs := page[..];
  }

  /** The page cache as `get_tasks` uses it: without filter parameters a
      page stored at `a` answers the request and the store is left alone;
      with filter parameters the freshly built `page` answers and nothing
      is stored; without filter parameters and with nothing at `a`, `page`
      answers and is stored at `a`. */
  function TasksPageRead(filterParams: bool, a: Address, page: TasksPage, entries: map<Address, TasksPage>)
    : (r: (TasksPage, map<Address, TasksPage>))
    ensures filterParams ==> r.0 == page && r.1 == entries
    ensures !filterParams && a in entries ==> r.0 == entries[a] && r.1 == entries
    ensures !filterParams && a !in entries ==> r.0 == page && r.1 == entries[a := page] && a in r.1
    ensures forall b :: b != a ==> (b in r.1 <==> b in entries)
    ensures a in entries ==> r.1 == entries
  {
    if !filterParams && a in entries then (entries[a], entries)
    else if filterParams then (page, entries)
    else (page, entries[a := page])
  }

  /** `get_tasks`: with no filter parameters, a page stored under the
      page's key is returned as it is; otherwise the page is built, and
      stored for five minutes when there are no filter parameters. The key
      is unversioned. */
  method GetTasks(db: Db, u: User, get: Query, filterParams: bool, pageNumber: string, perPage: nat,
                  obj: Option<Obj>, now: int, cache: Cache<TasksPage>) returns (r: TasksPage)
    requires perPage >= 1
    modifies cache
    ensures (r, cache.entries) == TasksPageRead(filterParams, Address(TasksPageKey(pageNumber, u), 1),
      BuildTasksPage(db, u, get, pageNumber, perPage, obj, now), old(cache.entries))
  {
    var cacheKey := TasksPageKey(pageNumber, u);
    if !filterParams {
      var cachedData := cache.Get(cacheKey, 1);
      if cachedData.Some? {
        return cachedData.value;
      }
    }
    r := ListTasks(db, u, get, pageNumber, perPage, obj, now);
    if !filterParams {
      cache.Set(cacheKey, 1, r);
    }
  }
}
