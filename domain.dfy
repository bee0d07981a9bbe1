/** The database: one sequence per table, in table order, holding the rows
    of the models the application defines (tasks/models.py, user/models.py).
    Many-to-many relations are sequences of ids held on the row that
    declares them; the through tables never hold a pair twice. Date-times
    are integer seconds. */
module Domain {
  import opened Wrappers
  import opened Seqs

  type Id = nat

  /** `user.User` (Django's AbstractUser): only the fields the core reads. */
  datatype User = User(id: Id, username: string, isSuperuser: bool, isStaff: bool)

  datatype Department = Department(id: Id, name: string)

  datatype Engineer = Engineer(
    id: Id,
    firstName: string,
    secondName: string,
    user: Option<Id>,
    department: Option<Id>,
    headOfDepartment: bool)

  /** `ObjectGroup` with its members (the `UserObjectGroup` through table). */
  datatype Group = Group(id: Id, name: string, users: seq<Id>)

  datatype Tag = Tag(id: Id, name: string)

  datatype AttachedFile = AttachedFile(id: Id, name: string, url: string, extension: string, isImage: bool)

  datatype Task = Task(
    id: Id,
    priority: string,
    isDone: bool,
    deleted: bool,
    completionTime: int,
    createTime: int,
    header: string,
    text: string,
    completionText: string,
    engineers: seq<Id>,
    departments: seq<Id>,
    tags: seq<Id>,
    files: seq<Id>,
    creator: Id)

  /** `Object`; `tasks`, `tags`, `groups` and `files` are its many-to-many
      relations, `parent` the nullable self reference. */
  datatype Obj = Obj(
    id: Id,
    name: string,
    slug: string,
    parent: Option<Id>,
    priority: string,
    description: string,
    tasks: seq<Id>,
    tags: seq<Id>,
    groups: seq<Id>,
    files: seq<Id>)

  datatype Db = Db(
    users: seq<User>,
    departments: seq<Department>,
    engineers: seq<Engineer>,
    groups: seq<Group>,
    tags: seq<Tag>,
    files: seq<AttachedFile>,
    tasks: seq<Task>,
    objects: seq<Obj>)

  /** The engineer whose one-to-one `user` field points at the user:
      `User.get_engineer_or_none()` (user/models.py). */
  function EngineerOfUser(db: Db, uid: Id): (r: Option<Engineer>)
    ensures r.Some? ==> r.value in db.engineers && r.value.user == Some(uid)
    ensures r.None? ==> forall e :: e in db.engineers ==> e.user != Some(uid)
  {
    var m := Where(db.engineers, (e: Engineer) => e.user == Some(uid));
    if |m| == 0 then None else Some(m[0])
  }

  function FindEngineer(db: Db, id: Id): (r: Option<Engineer>)
    ensures r.Some? ==> r.value in db.engineers && r.value.id == id
    ensures r.None? ==> forall e :: e in db.engineers ==> e.id != id
  {
    var m := Where(db.engineers, (e: Engineer) => e.id == id);
    if |m| == 0 then None else Some(m[0])
  }

  function FindDepartment(db: Db, id: Id): (r: Option<Department>)
    ensures r.Some? ==> r.value in db.departments && r.value.id == id
    ensures r.None? ==> forall d :: d in db.departments ==> d.id != id
  {
    var m := Where(db.departments, (d: Department) => d.id == id);
    if |m| == 0 then None else Some(m[0])
  }

  function FindObject(db: Db, id: Id): (r: Option<Obj>)
    ensures r.Some? ==> r.value in db.objects && r.value.id == id
    ensures r.None? ==> forall o :: o in db.objects ==> o.id != id
  {
    var m := Where(db.objects, (o: Obj) => o.id == id);
    if |m| == 0 then None else Some(m[0])
  }

  function FindFile(db: Db, id: Id): (r: Option<AttachedFile>)
    ensures r.Some? ==> r.value in db.files && r.value.id == id
    ensures r.None? ==> forall f :: f in db.files ==> f.id != id
  {
    var m := Where(db.files, (f: AttachedFile) => f.id == id);
    if |m| == 0 then None else Some(m[0])
  }

  /** The department id of engineer `eid`, None when the engineer has none
      (or does not exist, which a valid database rules out). */
  function DepartmentOfEngineer(db: Db, eid: Id): Option<Id> {
    var e := FindEngineer(db, eid);
    if e.Some? then e.value.department else None
  }

  /** The user is a member of some group of the object:
      `Object.objects.filter(groups__users=user)`. */
  predicate ObjectInUserGroup(db: Db, o: Obj, uid: Id) {
    exists g :: g in db.groups && g.id in o.groups && uid in g.users
  }

  /** Task t is linked to object o (`Object.tasks`, reverse `objects_set`). */
  predicate TaskOnObject(t: Task, o: Obj) {
    t.id in o.tasks
  }

  /** `Q(departments=dep)` on a task: the task lists the department, or,
      when dep is None (an `IS NULL` test on the outer join), the task lists
      no department at all. */
  predicate TaskInDepartment(t: Task, dep: Option<Id>) {
    if dep.None? then |t.departments| == 0 else dep.value in t.departments
  }

  /** `Q(engineers__department=dep)` on a task: one of its engineers belongs
      to the department; when dep is None, the task has no engineer or one
      without a department. */
  predicate TaskHasEngineerInDepartment(db: Db, t: Task, dep: Option<Id>) {
    (dep.None? && |t.engineers| == 0)
    || exists eid :: eid in t.engineers && DepartmentOfEngineer(db, eid) == dep
  }

  predicate UniqueIds(ids: seq<Id>) { NoDup(ids) }

  /** Primary keys are unique, the one-to-one `Engineer.user` never repeats,
      and no many-to-many relation holds a pair twice. */
  predicate Valid(db: Db) {
    (forall i, j :: 0 <= i < j < |db.users| ==> db.users[i].id != db.users[j].id)
    && (forall i, j :: 0 <= i < j < |db.departments| ==> db.departments[i].id != db.departments[j].id)
    && (forall i, j :: 0 <= i < j < |db.engineers| ==> db.engineers[i].id != db.engineers[j].id)
    && (forall i, j :: 0 <= i < j < |db.engineers| && db.engineers[i].user.Some? ==>
          db.engineers[i].user != db.engineers[j].user)
    && (forall i, j :: 0 <= i < j < |db.groups| ==> db.groups[i].id != db.groups[j].id)
    && (forall i, j :: 0 <= i < j < |db.tags| ==> db.tags[i].id != db.tags[j].id)
    && (forall i, j :: 0 <= i < j < |db.files| ==> db.files[i].id != db.files[j].id)
    && (forall i, j :: 0 <= i < j < |db.tasks| ==> db.tasks[i].id != db.tasks[j].id)
    && (forall i, j :: 0 <= i < j < |db.objects| ==> db.objects[i].id != db.objects[j].id)
    && (forall t :: t in db.tasks ==> NoDup(t.engineers) && NoDup(t.departments))
  }
}
