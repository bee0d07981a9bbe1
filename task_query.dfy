/** Task querysets: the conditions the application's `filter` and `Q`
    expressions put on tasks, a selection that keeps table order, the
    orderings it asks for, and the day a date-time falls on (`__date`, in
    the Europe/Moscow time zone the project is configured with). */
module TaskQuery {
  import opened Wrappers
  import opened Text
  import opened Seqs
  import opened Sorting
  import opened Domain
  import opened Calendar


  /** Europe/Moscow is three hours ahead of UTC all year round (it has kept
      no daylight saving time since 2014). */
  const MoscowOffset: int := 3 * 3600

  /** The Moscow day number (days since 1970-01-01) of a UTC time in
      seconds: the date `__date` lookups and `datetime.now().date()` see
      when the time zone is Europe/Moscow. */
  function DayOf(seconds: int): int {
    (seconds + MoscowOffset) / SecondsPerDay
  }

  /** The Moscow day of a time is the day whose 24 hours hold the time
      moved three hours ahead. */
  lemma DayOfBounds(seconds: int)
    ensures DayOf(seconds) * SecondsPerDay <= seconds + MoscowOffset < (DayOf(seconds) + 1) * SecondsPerDay
  {
    var day := DayOf(seconds);
    var rem := (seconds + MoscowOffset) % SecondsPerDay;
    assert seconds + MoscowOffset == day * SecondsPerDay + rem && 0 <= rem < SecondsPerDay;
  }

  /** A UTC time from 21:00 on is already the next day in Moscow. */
  lemma {:induction false} LateEveningIsNextMoscowDay(day: int, secondOfDay: int)
    requires 21 * 3600 <= secondOfDay < SecondsPerDay
    ensures DayOf(day * SecondsPerDay + secondOfDay) == day + 1
  {
    var t := day * SecondsPerDay + secondOfDay;
    DayOfBounds(t);
    assert (day + 1) * SecondsPerDay <= t + MoscowOffset < (day + 2) * SecondsPerDay;
  }

  /** A UTC time before 21:00 is still the same day in Moscow. */
  lemma {:induction false} DaytimeIsSameMoscowDay(day: int, secondOfDay: int)
    requires 0 <= secondOfDay < 21 * 3600
    ensures DayOf(day * SecondsPerDay + secondOfDay) == day
  {
    var t := day * SecondsPerDay + secondOfDay;
    DayOfBounds(t);
    assert day * SecondsPerDay <= t + MoscowOffset < (day + 1) * SecondsPerDay;
  }

  /** The Moscow day of a UTC day's instant: the same day until 21:00 UTC,
      the next one from then on. */
  lemma {:induction false} MoscowDayOf(day: int, secondOfDay: int)
    requires 0 <= secondOfDay < SecondsPerDay
    ensures DayOf(day * SecondsPerDay + secondOfDay) == (if secondOfDay < 21 * 3600 then day else day + 1)
  {
    if secondOfDay < 21 * 3600 {
      DaytimeIsSameMoscowDay(day, secondOfDay);
    } else {
      LateEveningIsNextMoscowDay(day, secondOfDay);
    }
  }

  /** A condition on a task: one `filter(...)` or `Q(...)` term, or a
      combination of them. */
  datatype Cond =
    | Everything                               // Q()
    | Nothing                                  // .none()
    | NotDeleted                               // deleted=False
    | Done(done: bool)                         // is_done=done
    | HasEngineer(eid: Id)                     // engineers=engineer
    | NoEngineer                               // engineers=None
    | InDepartment(dep: Option<Id>)            // departments=dep
    | EngineerInDepartment(dep: Option<Id>)    // engineers__department=dep
    | CreatedBy(uid: Id)                       // creator=user
    | CreatorIn(uids: seq<Id>)                 // creator__in=users
    | AnyTag(tagIds: seq<Id>)                  // tags=t1 | tags=t2 | ...
    | AnyObject(objIds: seq<Id>)               // objects_set=o1 | ...
    | LinkedTo(o: Obj)                         // objects_set=obj
    | Search(needle: string)                   // header__icontains | text__icontains
    | PriorityIs(priority: string)             // priority=value
    | DueFrom(day: int)                        // completion_time__date__gte
    | DueUntil(day: int)                       // completion_time__date__lte
    | DueOn(day: int)                          // completion_time__date=day
    | Or(a: Cond, b: Cond)
    | And(a: Cond, b: Cond)
    | Not(c: Cond)

  /** `icontains`: the needle occurs in the text, ignoring case. */
  predicate IContains(text: string, needle: string) {
    Contains(LowerStr(text), LowerStr(needle))
  }

  /** Whether task t meets condition c. */
  predicate Holds(db: Db, t: Task, c: Cond)
    decreases c
  {
    match c
    case Everything => true
    case Nothing => false
    case NotDeleted => !t.deleted
    case Done(b) => t.isDone == b
    case HasEngineer(eid) => eid in t.engineers
    case NoEngineer => |t.engineers| == 0
    case InDepartment(dep) => TaskInDepartment(t, dep)
    case EngineerInDepartment(dep) => TaskHasEngineerInDepartment(db, t, dep)
    case CreatedBy(uid) => t.creator == uid
    case CreatorIn(uids) => t.creator in uids
    case AnyTag(ids) => exists id :: id in ids && id in t.tags
    case AnyObject(ids) => exists o :: o in db.objects && o.id in ids && TaskOnObject(t, o)
    case LinkedTo(o) => TaskOnObject(t, o)
    case Search(s) => IContains(t.header, s) || IContains(t.text, s)
    case PriorityIs(p) => t.priority == p
    case DueFrom(day) => DayOf(t.completionTime) >= day
    case DueUntil(day) => DayOf(t.completionTime) <= day
    case DueOn(day) => DayOf(t.completionTime) == day
    case Or(a, b) => Holds(db, t, a) || Holds(db, t, b)
    case And(a, b) => Holds(db, t, a) && Holds(db, t, b)
    case Not(a) => !Holds(db, t, a)
  }

  /** Condition c as a test on tasks. */
  function Pred(db: Db, c: Cond): Task -> bool {
    t => Holds(db, t, c)
  }

  /** `queryset.filter(c)`: the tasks meeting c, in their order. */
  function Select(db: Db, ts: seq<Task>, c: Cond): (r: seq<Task>)
    ensures |r| <= |ts|
    ensures forall t :: t in r <==> t in ts && Holds(db, t, c)
  {
    Where(ts, Pred(db, c))
  }

  /** Two successive filters are one filter by both conditions. */
  lemma SelectSelect(db: Db, ts: seq<Task>, a: Cond, b: Cond)
    ensures Select(db, Select(db, ts, a), b) == Select(db, ts, And(a, b))
  {
    WhereWhere(ts, Pred(db, a), Pred(db, b), Pred(db, And(a, b)));
  }

  /** Filtering distributes over concatenation. */
  lemma SelectAppend(db: Db, xs: seq<Task>, ys: seq<Task>, c: Cond)
    ensures Select(db, xs + ys, c) == Select(db, xs, c) + Select(db, ys, c)
  {
    WhereAppend(xs, ys, Pred(db, c));
  }

  /** The tasks meeting c and those not meeting it add up to all of them. */
  lemma SelectPartition(db: Db, ts: seq<Task>, c: Cond)
    ensures |Select(db, ts, c)| + |Select(db, ts, Not(c))| == |ts|
  {
    WherePartition(ts, Pred(db, c), Pred(db, Not(c)));
  }

  /** A filter every task already meets changes nothing. */
  lemma SelectAll(db: Db, ts: seq<Task>, c: Cond)
    requires forall i :: 0 <= i < |ts| ==> Holds(db, ts[i], c)
    ensures Select(db, ts, c) == ts
  {
    WhereAll(ts, Pred(db, c));
  }

  /** A filter no task meets leaves nothing. */
  lemma SelectNone(db: Db, ts: seq<Task>, c: Cond)
    requires forall i :: 0 <= i < |ts| ==> !Holds(db, ts[i], c)
    ensures Select(db, ts, c) == []
  {
    WhereNone(ts, Pred(db, c));
  }

  /** Filtering twice by the same condition is filtering once. */
  lemma SelectIdempotent(db: Db, ts: seq<Task>, c: Cond)
    ensures Select(db, Select(db, ts, c), c) == Select(db, ts, c)
  {
    WhereIdempotent(ts, Pred(db, c));
  }

  /** Filtering keeps rows distinct. */
  lemma SelectNoDup(db: Db, ts: seq<Task>, c: Cond)
    requires NoDup(ts)
    ensures NoDup(Select(db, ts, c))
  {
    WhereNoDup(ts, Pred(db, c));
  }

  /** Filtering keeps rows in the order a sort put them in. */
  lemma SelectSorted(db: Db, ts: seq<Task>, c: Cond, key: Task -> Key)
    requires SortedBy(ts, key)
    ensures SortedBy(Select(db, ts, c), key)
  {
    WhereSorted(ts, Pred(db, c), key);
  }

  /** Rows with distinct ids are distinct rows. */
  lemma TasksNoDup(db: Db)
    requires Valid(db)
    ensures NoDup(db.tasks)
  {
  }

  // ------------------------------------------------------------ orderings

  /** `Task.Meta.ordering = ["create_time"]`. */
  function CreateKey(t: Task): Key {
    (t.createTime, 0, 0)
  }

  /** `order_by("completion_time", "create_time")`. */
  function DueAscKey(t: Task): Key {
    (t.completionTime, t.createTime, 0)
  }

  /** `order_by("-completion_time", "-create_time")`. */
  function DueDescKey(t: Task): Key {
    (-t.completionTime, -t.createTime, 0)
  }

  /** `order_by("completion_time")`. */
  function CompletionAscKey(t: Task): Key {
    (t.completionTime, 0, 0)
  }

  /** `order_by("-completion_time")`. */
  function CompletionDescKey(t: Task): Key {
    (-t.completionTime, 0, 0)
  }

  /** Sorting keeps the set of rows. */
  lemma SortKeepsTasks(ts: seq<Task>, key: Task -> Key)
    ensures forall t :: t in SortBy(ts, key) <==> t in ts
  {
    forall t ensures t in SortBy(ts, key) <==> t in ts {
      SortKeepsMembers(ts, key, t);
    }
  }
}
